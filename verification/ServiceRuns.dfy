/** A service method that runs undisturbed is one short run of the protocol, so
    what is proved of all runs holds for the service object too. */
module ServiceRuns {
  import opened ApprovalModel
  import opened ApprovalProtocol
  import opened Options
  import ApprovalService
  import MemoryStore

  /** The three steps of one service call by `p`, with no fault in between. */
  function Undisturbed(s: System, p: nat, op: Op, enabled: bool, id: Id, now: Instant): System {
    Exec(Exec(Exec(s, Call(p, op, enabled, id, now, false)), ClaimKey(p, Clean)), Swap(p, Clean, 0, 0))
  }

  /** What became of the repository and the history. */
  ghost predicate Leaves(s: System, after: System, store: MemoryStore.Store, committed: seq<PendingAction>) {
    && after.repo == Memory(store)
    && |after.history| == |s.history| + |committed|
    && s.history <= after.history
    && forall k :: 0 <= k < |committed| ==> after.history[|s.history| + k].value == committed[k]
  }

  lemma RefusedRun(s: System, p: nat, op: Op, enabled: bool, id: Id, now: Instant)
    requires s.repo.Memory? && ProcOf(s, p) == Proc(Free, [])
    requires id !in s.repo.store.actions || Decide(op, enabled, s.repo.store.actions[id], now).Refuse?
    ensures Leaves(s, Undisturbed(s, p, op, enabled, id, now), s.repo.store, [])
  {
    var s1 := Exec(s, Call(p, op, enabled, id, now, false));
    assert ProcOf(s1, p) == Proc(Free, []) && s1.repo == s.repo && s1.history == s.history;
  }

  lemma CallReads(s: System, p: nat, op: Op, enabled: bool, id: Id, now: Instant)
    requires s.repo.Memory? && ProcOf(s, p) == Proc(Free, []) && id in s.repo.store.actions
    requires !Decide(op, enabled, s.repo.store.actions[id], now).Refuse?
    ensures Exec(s, Call(p, op, enabled, id, now, false))
            == WithProc(s, p, Proc(if op.Begin? then Claiming(id) else Free,
                                   [Plan(op, enabled, now, s.repo.store.actions[id], false)]))
  {
  }

  /** The CAS of an undisturbed plan goes through. */
  lemma SwapCommits(s: System, p: nat, pc: Pc, plan: Plan)
    requires s.repo.Memory? && ProcOf(s, p) == Proc(pc, [plan]) && ReadyToSwap(plan)
    requires var a := plan.base; a.actionId in s.repo.store.actions && s.repo.store.actions[a.actionId] == a
    ensures var next := Next(plan.Verdict());
            && s.repo.store.Replace(next, plan.base.version)
               == Ok(s.repo.store.(actions := s.repo.store.actions[plan.base.actionId := next]))
            && Leaves(s, Exec(s, Swap(p, Clean, 0, 0)), s.repo.store.Replace(next, plan.base.version).value, [next])
  {
    WritesBump(plan.op, plan.enabled, plan.base, plan.now);
  }

  lemma WritesBump(op: Op, enabled: bool, a: PendingAction, now: Instant)
    requires !Decide(op, enabled, a, now).Refuse?
    ensures Next(Decide(op, enabled, a, now)).version == a.version + 1
    ensures Next(Decide(op, enabled, a, now)).actionId == a.actionId
  {
  }

  lemma WriteRun(s: System, p: nat, op: Op, enabled: bool, id: Id, now: Instant)
    requires s.repo.Memory? && ProcOf(s, p) == Proc(Free, [])
    requires id in s.repo.store.actions && s.repo.store.actions[id].actionId == id
    requires Decide(op, enabled, s.repo.store.actions[id], now).Write?
    ensures var next := Decide(op, enabled, s.repo.store.actions[id], now).next;
            && s.repo.store.Replace(next, s.repo.store.actions[id].version).Ok?
            && Leaves(s, Undisturbed(s, p, op, enabled, id, now),
                      s.repo.store.Replace(next, s.repo.store.actions[id].version).value, [next])
  {
    CallReads(s, p, op, enabled, id, now);
    var plan := Plan(op, enabled, now, s.repo.store.actions[id], false);
    var s1 := Exec(s, Call(p, op, enabled, id, now, false));
    assert Exec(s1, ClaimKey(p, Clean)) == s1;
    SwapCommits(s1, p, ProcOf(s1, p).pc, plan);
  }

  lemma ClaimRun(s: System, p: nat, op: Op, enabled: bool, id: Id, now: Instant)
    requires s.repo.Memory? && ProcOf(s, p) == Proc(Free, [])
    requires id in s.repo.store.actions && s.repo.store.actions[id].actionId == id
    requires Decide(op, enabled, s.repo.store.actions[id], now).ClaimThenWrite?
    ensures var a := s.repo.store.actions[id];
            var taken := s.repo.store.Claim(a.idempotencyKey, id);
            var next := Decide(op, enabled, a, now).next;
            var after := Undisturbed(s, p, op, enabled, id, now);
            if taken.None? then Leaves(s, after, s.repo.store, [])
            else taken.value.Replace(next, a.version).Ok?
                 && Leaves(s, after, taken.value.Replace(next, a.version).value, [next])
  {
    CallReads(s, p, op, enabled, id, now);
    var a := s.repo.store.actions[id];
    var plan := Plan(op, enabled, now, a, false);
    var s1 := Exec(s, Call(p, op, enabled, id, now, false));
    var s2 := Exec(s1, ClaimKey(p, Clean));
    var taken := s.repo.store.Claim(a.idempotencyKey, id);
    if taken.Some? {
      assert s2.repo == Memory(taken.value) && s2.history == s.history;
      assert ProcOf(s2, p) == Proc(ProcOf(s1, p).pc, [plan.(claimed := true)]);
      SwapCommits(s2, p, ProcOf(s1, p).pc, plan.(claimed := true));
    } else {
      assert ProcOf(s2, p).plans == [] && s2.repo == s.repo && s2.history == s.history;
    }
  }

  /** The store after the three steps is the store after the method, and the
      history gained exactly the value the method stored. */
  lemma CallIsPerform(s: System, p: nat, op: Op, enabled: bool, id: Id, now: Instant)
    requires s.repo.Memory? && ProcOf(s, p) == Proc(Free, [])
    requires id in s.repo.store.actions ==> s.repo.store.actions[id].actionId == id
    ensures var store := ApprovalService.Perform(s.repo.store, op, enabled, id, now).1;
            var after := Undisturbed(s, p, op, enabled, id, now);
            if store.actions == s.repo.store.actions then Leaves(s, after, store, [])
            else id in store.actions && Leaves(s, after, store, [store.actions[id]])
  {
    if id !in s.repo.store.actions || Decide(op, enabled, s.repo.store.actions[id], now).Refuse? {
      RefusedRun(s, p, op, enabled, id, now);
      return;
    }
    var a := s.repo.store.actions[id];
    WritesBump(op, enabled, a, now);
    if Decide(op, enabled, a, now).Write? {
      WriteRun(s, p, op, enabled, id, now);
    } else {
      ClaimRun(s, p, op, enabled, id, now);
    }
  }

  // ---------- the critical section undisturbed ----------

  /** `p` stands at `pc` with no call under way, and `a` is stored. */
  ghost predicate At(s: System, p: nat, pc: Pc, a: PendingAction) {
    && s.repo.Memory? && ProcOf(s, p) == Proc(pc, [])
    && a.actionId in s.repo.store.actions && s.repo.store.actions[a.actionId] == a
  }

  /** One call of the critical section, with its write. */
  function Called(s: System, p: nat, op: Op, id: Id, now: Instant): System {
    Exec(Exec(s, Call(p, op, true, id, now, false)), Swap(p, Clean, 0, 0))
  }

  /** It stores what the decision says, moves on and reports. */
  lemma CallReturns(s: System, p: nat, pc: Pc, op: Op, a: PendingAction, now: Instant)
    requires At(s, p, pc, a) && Entry(pc, op, a.actionId).Some?
    requires Decide(op, true, a, now).Write? && Decide(op, true, a, now).raises == None
    ensures var next := Next(Decide(op, true, a, now));
            var entered := Entry(pc, op, a.actionId).value;
            var after := Called(s, p, op, a.actionId, now);
            && At(after, p, Resume(entered, Some(next)), next)
            && after.reports == s.reports + Report(entered, Some(next))
            && after.dispatches == s.dispatches && after.remote == s.remote
  {
    var entered := Entry(pc, op, a.actionId).value;
    var plan := Plan(op, true, now, a, false);
    WritesBump(op, true, a, now);
    assert Exec(s, Call(p, op, true, a.actionId, now, false)) == WithProc(s, p, Proc(entered, [plan]));
    ReadySwapReturns(WithProc(s, p, Proc(entered, [plan])), p, entered, plan);
  }

  lemma ReadySwapReturns(s: System, p: nat, pc: Pc, plan: Plan)
    requires s.repo.Memory? && ProcOf(s, p) == Proc(pc, [plan]) && ReadyToSwap(plan)
    requires plan.Verdict().Write? ==> plan.Verdict().raises == None
    requires var a := plan.base; a.actionId in s.repo.store.actions && s.repo.store.actions[a.actionId] == a
    ensures var next := Next(plan.Verdict());
            var after := Exec(s, Swap(p, Clean, 0, 0));
            && At(after, p, Resume(pc, Some(next)), next)
            && after.reports == s.reports + Report(pc, Some(next))
            && after.dispatches == s.dispatches && after.remote == s.remote
  {
    WritesBump(plan.op, plan.enabled, plan.base, plan.now);
  }

  /** begin_execution with its claim, undisturbed. */
  lemma BeginReturns(s: System, p: nat, op: Op, a: PendingAction, now: Instant)
    requires At(s, p, Free, a) && op.Begin? && Decide(op, true, a, now).ClaimThenWrite?
    requires a.idempotencyKey !in s.repo.store.claims
    ensures var after := Undisturbed(s, p, op, true, a.actionId, now);
            && At(after, p, Claimed(a.actionId), Bump(a, Executing))
            && after.reports == s.reports && after.dispatches == s.dispatches && after.remote == s.remote
  {
    CallReads(s, p, op, true, a.actionId, now);
    var plan := Plan(op, true, now, a, false);
    var s1 := Exec(s, Call(p, op, true, a.actionId, now, false));
    var s2 := Exec(s1, ClaimKey(p, Clean));
    assert ProcOf(s2, p) == Proc(Claiming(a.actionId), [plan.(claimed := true)]);
    ReadySwapReturns(s2, p, Claiming(a.actionId), plan.(claimed := true));
  }

  /** The write is sent and its result comes back. */
  function Answered(s: System, p: nat, outcome: Remote): System {
    Exec(Exec(s, Dispatch(p)), RemoteAnswers(p, outcome))
  }

  lemma DispatchReturns(s: System, p: nat, a: PendingAction, outcome: Remote)
    requires At(s, p, Claimed(a.actionId), a) && (outcome.Returned? || outcome.Ambiguous?)
    ensures var after := Answered(s, p, outcome);
            && At(after, p, if outcome.Returned? then Persisting(a.actionId, outcome.verified) else Marking(a.actionId), a)
            && after.dispatches == s.dispatches + [a.actionId] && after.reports == s.reports
            && after.remote == s.remote[a.actionId := outcome]
  {
  }

  /** From an approved action whose target is unchanged, an undisturbed critical
      section dispatches exactly once and stores and reports SUCCEEDED when the
      adapter verified the write, UNKNOWN when it did not. */
  lemma UndisturbedWriteCompletes(s: System, p: nat, a: PendingAction, fingerprint: string, now: Instant,
                                  verified: bool, execution: string, postcondition: string, later: Instant)
    requires At(s, p, Free, a) && a.status == Approved && now < a.expiresAt && fingerprint == a.stateFingerprint
    requires a.idempotencyKey !in s.repo.store.claims
    ensures var claimed := Undisturbed(s, p, Begin(fingerprint), true, a.actionId, now);
            var answered := Answered(claimed, p, Returned(verified));
            var done := Called(answered, p, CompleteSuccess(execution, postcondition, verified), a.actionId, later);
            var status := if verified then Succeeded else Unknown;
            && done.repo.Memory? && a.actionId in done.repo.store.actions
            && done.repo.store.actions[a.actionId].status == status
            && done.repo.store.actions[a.actionId].version == a.version + 2
            && done.reports == s.reports + [(a.actionId, status)]
            && done.dispatches == s.dispatches + [a.actionId]
            && ProcOf(done, p) == Proc(Free, [])
  {
    BeginReturns(s, p, Begin(fingerprint), a, now);
    var claimed := Undisturbed(s, p, Begin(fingerprint), true, a.actionId, now);
    var executing := Bump(a, Executing);
    DispatchReturns(claimed, p, executing, Returned(verified));
    var answered := Answered(claimed, p, Returned(verified));
    CallReturns(answered, p, Persisting(a.actionId, verified), CompleteSuccess(execution, postcondition, verified),
                executing, later);
  }

  /** Recording the uncertain outcome. */
  lemma MarkReturns(s: System, p: nat, a: PendingAction, result: string, now: Instant)
    requires At(s, p, Marking(a.actionId), a) && a.status == Executing
    ensures var marked := Called(s, p, CompleteFailure(result, true), a.actionId, now);
            && At(marked, p, Asking(a.actionId), Bump(a, Unknown).(executionResult := Some(result)))
            && marked.reports == s.reports && marked.dispatches == s.dispatches
  {
    CallReturns(s, p, Marking(a.actionId), CompleteFailure(result, true), a, now);
  }

  /** Recording a confirmed outcome. */
  lemma PromoteReturns(s: System, p: nat, a: PendingAction, detail: string, now: Instant)
    requires At(s, p, Promoting(a.actionId), a) && a.status == Unknown
    ensures var done := Called(s, p, Reconcile(true, detail), a.actionId, now);
            && At(done, p, Free, Bump(a, Succeeded).(postconditionResult := Some(detail)))
            && done.reports == s.reports + [(a.actionId, Succeeded)] && done.dispatches == s.dispatches
  {
    CallReturns(s, p, Promoting(a.actionId), Reconcile(true, detail), a, now);
  }

  lemma ReadBackReturns(s: System, p: nat, a: PendingAction, applied: bool)
    requires At(s, p, Asking(a.actionId), a)
    ensures var asked := Exec(s, ReadBack(p, applied));
            && At(asked, p, if applied then Promoting(a.actionId) else Free, a)
            && asked.reports == (if applied then s.reports else s.reports + [(a.actionId, Unknown)])
            && asked.dispatches == s.dispatches
  {
  }

  /** After an ambiguous answer, an undisturbed critical section stores UNKNOWN, and
      SUCCEEDED once the read-back confirms; it never dispatches again. */
  lemma UndisturbedRecoveryCompletes(s: System, p: nat, a: PendingAction, applied: bool, result: string, detail: string,
                                     later: Instant)
    requires At(s, p, Marking(a.actionId), a) && a.status == Executing
    ensures var marked := Called(s, p, CompleteFailure(result, true), a.actionId, later);
            var asked := Exec(marked, ReadBack(p, applied));
            var done := if applied then Called(asked, p, Reconcile(true, detail), a.actionId, later) else asked;
            var status := if applied then Succeeded else Unknown;
            && done.repo.Memory? && a.actionId in done.repo.store.actions
            && done.repo.store.actions[a.actionId].status == status
            && done.reports == s.reports + [(a.actionId, status)]
            && done.dispatches == s.dispatches
  {
    var marked := Called(s, p, CompleteFailure(result, true), a.actionId, later);
    var unknown := Bump(a, Unknown).(executionResult := Some(result));
    MarkReturns(s, p, a, result, later);
    ReadBackReturns(marked, p, unknown, applied);
    if applied {
      PromoteReturns(Exec(marked, ReadBack(p, applied)), p, unknown, detail, later);
    }
  }

  // ---------- the critical section when something fails ----------

  /** Nothing moved but process `p`. */
  ghost predicate Rests(s: System, after: System) {
    && after.repo == s.repo && after.history == s.history
    && after.dispatches == s.dispatches && after.reports == s.reports
  }

  /** Parameters that cannot be prepared end the section before any dispatch. */
  lemma PreparationFails(s: System, p: nat, a: PendingAction)
    requires At(s, p, Claimed(a.actionId), a)
    ensures var after := Exec(s, AbortPreparation(p)); At(after, p, Aborting(a.actionId), a) && Rests(s, after)
  {
  }

  /** A deterministic error of the adapter ends the section after one dispatch. */
  lemma DispatchFails(s: System, p: nat, a: PendingAction)
    requires At(s, p, Claimed(a.actionId), a)
    ensures var after := Answered(s, p, OtherError);
            && At(after, p, Failing(a.actionId), a) && after.reports == s.reports
            && after.dispatches == s.dispatches + [a.actionId]
  {
  }

  /** Either way FAILED is stored, the process leaves and the caller sees the exception. */
  lemma UndisturbedFailureCompletes(s: System, p: nat, a: PendingAction, aborted: bool, result: string, later: Instant)
    requires At(s, p, if aborted then Aborting(a.actionId) else Failing(a.actionId), a) && a.status == Executing
    ensures var done := Called(s, p, CompleteFailure(result, false), a.actionId, later);
            && At(done, p, Free, a.(status := Failed, executionResult := Some(result), version := a.version + 1))
            && done.reports == s.reports && done.dispatches == s.dispatches
  {
    CallReturns(s, p, if aborted then Aborting(a.actionId) else Failing(a.actionId), CompleteFailure(result, false), a, later);
  }

  /** A call whose write does not go through. */
  function Faulty(s: System, p: nat, op: Op, id: Id, now: Instant): System {
    Exec(Exec(s, Call(p, op, true, id, now, false)), Swap(p, BeforeCommit, 0, 0))
  }

  lemma CallRaises(s: System, p: nat, pc: Pc, op: Op, a: PendingAction, now: Instant)
    requires At(s, p, pc, a) && Entry(pc, op, a.actionId).Some?
    requires Decide(op, true, a, now).Write?
    ensures var entered := Entry(pc, op, a.actionId).value;
            var after := Faulty(s, p, op, a.actionId, now);
            && At(after, p, Resume(entered, None), a)
            && after.reports == s.reports + Report(entered, None)
            && after.dispatches == s.dispatches && after.repo == s.repo
  {
    var entered := Entry(pc, op, a.actionId).value;
    var plan := Plan(op, true, now, a, false);
    assert Exec(s, Call(p, op, true, a.actionId, now, false)) == WithProc(s, p, Proc(entered, [plan]));
  }

  /** A result that cannot be stored is never a failure: the section goes on to record
      an uncertain outcome. */
  lemma PersistenceFails(s: System, p: nat, a: PendingAction, verified: bool, execution: string, postcondition: string,
                         later: Instant)
    requires At(s, p, Persisting(a.actionId, verified), a) && a.status == Executing
    ensures var after := Faulty(s, p, CompleteSuccess(execution, postcondition, verified), a.actionId, later);
            At(after, p, Marking(a.actionId), a) && after.reports == s.reports && after.dispatches == s.dispatches
  {
    CallRaises(s, p, Persisting(a.actionId, verified), CompleteSuccess(execution, postcondition, verified), a, later);
  }

  /** When that fails too the action stays EXECUTING, and nothing is reported. */
  lemma MarkingFails(s: System, p: nat, a: PendingAction, result: string, later: Instant)
    requires At(s, p, Marking(a.actionId), a) && a.status == Executing
    ensures var after := Faulty(s, p, CompleteFailure(result, true), a.actionId, later);
            At(after, p, Free, a) && after.reports == s.reports && after.dispatches == s.dispatches
  {
    CallRaises(s, p, Marking(a.actionId), CompleteFailure(result, true), a, later);
  }

  /** A confirmation that cannot be stored is reported as UNKNOWN. */
  lemma PromotionFails(s: System, p: nat, a: PendingAction, detail: string, later: Instant)
    requires At(s, p, Promoting(a.actionId), a) && a.status == Unknown
    ensures var after := Faulty(s, p, Reconcile(true, detail), a.actionId, later);
            && At(after, p, Free, a) && after.reports == s.reports + [(a.actionId, Unknown)]
            && after.dispatches == s.dispatches
  {
    CallRaises(s, p, Promoting(a.actionId), Reconcile(true, detail), a, later);
  }

  // ---------- expire_pending ----------

  predicate PastDue(s: MemoryStore.Store, id: Id, now: Instant) {
    && id in s.actions
    && (s.actions[id].status == Pending || s.actions[id].status == PartiallyApproved || s.actions[id].status == Approved)
    && s.actions[id].expiresAt <= now
  }

  function DueIds(s: MemoryStore.Store, ids: seq<Id>, now: Instant): seq<Id> {
    if ids == [] then [] else (if PastDue(s, ids[0], now) then [ids[0]] else []) + DueIds(s, ids[1..], now)
  }

  /** It plans one expiry for each overdue active action it lists, in their order. */
  lemma {:induction false} ExpiryPlansExactly(s: MemoryStore.Store, ids: seq<Id>, now: Instant)
    ensures var plans, due := ExpiryPlans(Memory(s), ids, now), DueIds(s, ids, now);
            && |plans| == |due|
            && forall i :: 0 <= i < |due| ==> due[i] in s.actions && plans[i] == Plan(Expire, true, now, s.actions[due[i]], false)
  {
    if ids != [] {
      ExpiryPlansExactly(s, ids[1..], now);
    }
  }
}
