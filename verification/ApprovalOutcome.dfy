/** Outcome fidelity of the post-approval critical section, over every
    interleaving in which only critical sections complete or reconcile actions. */
module ApprovalOutcome {
  import opened ApprovalModel
  import opened ApprovalProtocol
  import opened ApprovalSafety
  import opened Options
  import MemoryStore

  /** The calls the application makes outside its critical section. */
  predicate UserOp(op: Op) {
    op.Confirm? || op.Approve? || op.Reject? || op.Begin? || op.Expire?
  }

  predicate DisciplinedStep(s: System, step: Step) {
    step.Call? && ProcOf(s, step.p).pc.Free? ==> UserOp(step.op)
  }

  ghost predicate Disciplined(repo: Repository, steps: seq<Step>) {
    forall k :: 0 <= k < |steps| ==> DisciplinedStep(Run(repo, steps[..k]), steps[k])
  }

  /** The write may have reached the remote system, as far as dic.execute said. */
  predicate MayBeApplied(id: Id, remote: map<Id, Remote>) {
    id in remote && (remote[id].Returned? || remote[id].Ambiguous?)
  }

  predicate VerifiedApplied(id: Id, remote: map<Id, Remote>, confirmed: set<Id>) {
    id in remote && (remote[id] == Returned(true) || (MayBeApplied(id, remote) && id in confirmed))
  }

  /** What a stored status says about the remote write. */
  predicate StatusHonest(status: Status, id: Id, remote: map<Id, Remote>, confirmed: set<Id>) {
    && (!Execution(status) ==> id !in remote)
    && (status == Succeeded ==> VerifiedApplied(id, remote, confirmed))
    && (status == Failed ==> id !in remote || remote[id] == OtherError)
    && (status == Unknown ==> MayBeApplied(id, remote))
    && status != ReconciledNotApplied
  }

  /** What each point of the critical section knows about its action. */
  ghost predicate PcHonest(pc: Pc, st: MemoryStore.Store, remote: map<Id, Remote>, confirmed: set<Id>) {
    Owner(pc).Some? ==>
      var id := Owner(pc).value;
      id in st.actions && (
        var status := st.actions[id].status;
        match pc
        case Claimed(_) => id !in remote && status == Executing
        case Aborting(_) => id !in remote && status == Executing
        case InFlight(_) => id in remote && remote[id] == Running && status == Executing
        case Failing(_) => id in remote && remote[id] == OtherError && status == Executing
        case Persisting(_, v) => id in remote && remote[id] == Returned(v) && status == Executing
        case Marking(_) =>
          MayBeApplied(id, remote)
          && (status == Executing || status == Unknown || (status == Succeeded && remote[id] == Returned(true)))
        case Asking(_) => MayBeApplied(id, remote) && status == Unknown
        case Promoting(_) => MayBeApplied(id, remote) && id in confirmed && status == Unknown
        case _ => true)
  }

  predicate PlansHonest(proc: Proc) {
    Owner(proc.pc).None? ==> forall plan <- proc.plans :: UserOp(plan.op)
  }

  predicate ReportHonest(st: MemoryStore.Store, r: (Id, Status)) {
    && r.0 in st.actions
    && (r.1 == Succeeded || r.1 == Unknown)
    && (r.1 == Succeeded ==> st.actions[r.0].status == Succeeded)
    && (r.1 == Unknown ==> st.actions[r.0].status == Succeeded || st.actions[r.0].status == Unknown)
  }

  ghost predicate Faithful(s: System) {
    && s.repo.Memory?
    && (forall p <- s.procs :: PcHonest(s.procs[p].pc, s.repo.store, s.remote, s.confirmed) && PlansHonest(s.procs[p]))
    && (forall id <- s.repo.store.actions :: StatusHonest(s.repo.store.actions[id].status, id, s.remote, s.confirmed))
    && (forall id :: id in s.remote <==> id in s.dispatches)
    && (forall id <- s.remote :: id in s.repo.store.actions)
    && (forall r <- s.reports :: ReportHonest(s.repo.store, r))
  }

  // ---------- steps without a commit ----------

  lemma InstallFaithful(s: System, p: nat, proc: Proc)
    requires Faithful(s) && PlansHonest(proc)
    requires PcHonest(proc.pc, s.repo.store, s.remote, s.confirmed)
    ensures Faithful(WithProc(s, p, proc))
  {
  }

  lemma RaiseFaithful(s: System, p: nat)
    requires Faithful(s)
    ensures Faithful(Finish(s, p, None))
  {
    var pc := ProcOf(s, p).pc;
    assert p in s.procs ==> PcHonest(pc, s.repo.store, s.remote, s.confirmed);
    InstallFaithful(s, p, Proc(Resume(pc, None), []));
    if pc.Promoting? {
      assert ReportHonest(s.repo.store, (pc.id, Unknown));
    }
  }

  lemma ReadFaithful(s: System, p: nat, pc: Pc, op: Op, enabled: bool, now: Instant, found: Option<PendingAction>)
    requires Faithful(s) && PcHonest(pc, s.repo.store, s.remote, s.confirmed) && (Owner(pc).None? ==> UserOp(op))
    ensures Faithful(AfterRead(s, p, pc, op, enabled, now, found))
  {
    InstallFaithful(s, p, Proc(pc, []));
    RaiseFaithful(WithProc(s, p, Proc(pc, [])), p);
    if found.Some? {
      InstallFaithful(s, p, Proc(pc, [Plan(op, enabled, now, found.value, false)]));
    }
  }

  lemma CallFaithful(s: System, p: nat, op: Op, enabled: bool, id: Id, now: Instant, readFails: bool)
    requires Faithful(s) && (ProcOf(s, p).pc.Free? ==> UserOp(op))
    ensures Faithful(ExecCall(s, p, op, enabled, id, now, readFails))
  {
    var entry := Entry(ProcOf(s, p).pc, op, id);
    if entry.Some? {
      assert p in s.procs ==> PcHonest(s.procs[p].pc, s.repo.store, s.remote, s.confirmed);
      ReadFaithful(s, p, entry.value, op, enabled, now, if readFails then None else s.repo.Fetch(id));
    }
  }

  lemma ExpiryPlansHonest(repo: Repository, ids: seq<Id>, now: Instant)
    ensures PlansHonest(Proc(Free, ExpiryPlans(repo, ids, now)))
  {
  }

  lemma TakeKeepsActions(s: System, key: string, id: Id, repo: Repository)
    requires Faithful(s) && s.repo.Take(key, id) == Some(repo)
    ensures Faithful(s.(repo := repo, grants := s.grants + [key]))
  {
    assert repo.store.actions == s.repo.store.actions;
    forall q | q in s.procs
      ensures PcHonest(s.procs[q].pc, repo.store, s.remote, s.confirmed)
    {
      assert PcHonest(s.procs[q].pc, s.repo.store, s.remote, s.confirmed);
    }
    forall r | r in s.reports
      ensures ReportHonest(repo.store, r)
    {
      assert ReportHonest(s.repo.store, r);
    }
  }

  lemma ClaimFaithful(s: System, p: nat, fault: Fault)
    requires Faithful(s)
    ensures Faithful(ExecClaim(s, p, fault))
  {
    var proc := ProcOf(s, p);
    if proc.plans == [] || !proc.plans[0].Verdict().ClaimThenWrite? || proc.plans[0].claimed {
      return;
    }
    var plan := proc.plans[0];
    var taken := s.repo.Take(plan.base.idempotencyKey, plan.base.actionId);
    if fault == BeforeCommit || taken.None? {
      RaiseFaithful(s, p);
      return;
    }
    var granted := s.(repo := taken.value, grants := s.grants + [plan.base.idempotencyKey]);
    TakeKeepsActions(s, plan.base.idempotencyKey, plan.base.actionId, taken.value);
    if fault == AfterCommit {
      RaiseFaithful(granted, p);
    } else {
      ClaimedHonest(proc, plan);
      InstallFaithful(granted, p, Proc(proc.pc, [plan.(claimed := true)] + proc.plans[1..]));
    }
  }

  lemma ClaimedHonest(proc: Proc, plan: Plan)
    requires PlansHonest(proc) && proc.plans != [] && plan == proc.plans[0]
    ensures PlansHonest(Proc(proc.pc, [plan.(claimed := true)] + proc.plans[1..]))
  {
    assert forall x <- [plan.(claimed := true)] + proc.plans[1..] :: x == plan.(claimed := true) || x in proc.plans;
  }

  // ---------- the commit ----------

  /** What a CAS at `pc` can write: the decision table of the critical section. */
  lemma CommitHonest(pc: Pc, plan: Plan, st: MemoryStore.Store, remote: map<Id, Remote>, confirmed: set<Id>)
    requires plan.base.actionId in st.actions && st.actions[plan.base.actionId] == plan.base
    requires ReadyToSwap(plan) && PlanFits(pc, plan) && (Owner(pc).None? ==> UserOp(plan.op))
    requires PcHonest(pc, st, remote, confirmed)
    requires StatusHonest(plan.base.status, plan.base.actionId, remote, confirmed)
    ensures var next := Next(plan.Verdict());
            && StatusHonest(next.status, plan.base.actionId, remote, confirmed)
            && PcHonest(Resume(pc, None), st.(actions := st.actions[plan.base.actionId := next]), remote, confirmed)
            && (!(plan.Verdict().Write? && plan.Verdict().raises.Some?) ==>
                  PcHonest(Resume(pc, Some(next)), st.(actions := st.actions[plan.base.actionId := next]),
                           remote, confirmed))
            && (Owner(pc).Some? ==>
                  && Owner(pc) == Some(plan.base.actionId)
                  && (next.status == Failed || next.status == Succeeded || next.status == Unknown))
            && (Owner(pc).None? ==> !Execution(plan.base.status))
            && (pc.Promoting? ==> next.status == Succeeded)
            && (pc.Persisting? ==> next.status != Failed)
  {
  }

  /** A commit never touches the action another process owns. */
  lemma OthersKeep(s: System, p: nat, q: nat, id: Id)
    requires Faithful(s) && Exclusive(s.procs)
    requires p in s.procs && q in s.procs && q != p && Owner(s.procs[q].pc).Some?
    requires id in s.repo.store.actions
    requires Owner(s.procs[p].pc) == Some(id) || !Execution(s.repo.store.actions[id].status)
    ensures Owner(s.procs[q].pc) != Some(id)
  {
    assert PcHonest(s.procs[q].pc, s.repo.store, s.remote, s.confirmed);
  }

  lemma CommittedFaithful(s: System, s1: System, p: nat, id: Id, next: PendingAction)
    requires Faithful(s) && Exclusive(s.procs) && p in s.procs && id in s.repo.store.actions
    requires Owner(s.procs[p].pc) == Some(id) || !Execution(s.repo.store.actions[id].status)
    requires Edge(s.repo.store.actions[id].status, next.status)
    requires StatusHonest(next.status, id, s.remote, s.confirmed)
    requires s1.repo == Memory(s.repo.store.(actions := s.repo.store.actions[id := next]))
    requires s1.remote == s.remote && s1.confirmed == s.confirmed && s1.dispatches == s.dispatches
    requires s1.procs.Keys == s.procs.Keys && forall q <- s.procs :: q != p ==> s1.procs[q] == s.procs[q]
    requires PcHonest(s1.procs[p].pc, s1.repo.store, s.remote, s.confirmed) && PlansHonest(s1.procs[p])
    requires forall r <- s1.reports :: r in s.reports || ReportHonest(s1.repo.store, r)
    ensures Faithful(s1)
  {
    forall q | q in s1.procs && q != p
      ensures PcHonest(s1.procs[q].pc, s1.repo.store, s.remote, s.confirmed) && PlansHonest(s1.procs[q])
    {
      if Owner(s.procs[q].pc).Some? {
        OthersKeep(s, p, q, id);
      }
      assert PcHonest(s.procs[q].pc, s.repo.store, s.remote, s.confirmed);
    }
    forall r | r in s.reports
      ensures ReportHonest(s1.repo.store, r)
    {
      assert ReportHonest(s.repo.store, r);
    }
  }

  /** `p` is about to commit the write of its first plan. */
  ghost predicate AtCommit(s: System, p: nat, plan: Plan) {
    && s.repo.Memory? && Exclusive(s.procs) && p in s.procs
    && s.procs[p].plans != [] && plan == s.procs[p].plans[0] && ReadyToSwap(plan)
    && PlanFits(s.procs[p].pc, plan) && (!s.procs[p].pc.Free? ==> |s.procs[p].plans| <= 1)
    && plan.base.actionId in s.repo.store.actions && s.repo.store.actions[plan.base.actionId] == plan.base
    && Edge(plan.base.status, Next(plan.Verdict()).status)
  }

  ghost function Committing(s: System, plan: Plan): System
    requires s.repo.Memory? && !plan.Verdict().Refuse?
  {
    var next := Next(plan.Verdict());
    s.(repo := Memory(s.repo.store.(actions := s.repo.store.actions[plan.base.actionId := next])),
       history := s.history + [Commit(next, Some(plan))])
  }

  lemma CommitRaises(s: System, p: nat, plan: Plan)
    requires Faithful(s) && AtCommit(s, p, plan)
    ensures Faithful(Finish(Committing(s, plan), p, None))
  {
    assert plan in s.procs[p].plans;
    CommitHonest(s.procs[p].pc, plan, s.repo.store, s.remote, s.confirmed);
    CommittedFaithful(s, Finish(Committing(s, plan), p, None), p, plan.base.actionId, Next(plan.Verdict()));
  }

  lemma CommitReturns(s: System, p: nat, plan: Plan)
    requires Faithful(s) && AtCommit(s, p, plan)
    requires !(plan.Verdict().Write? && plan.Verdict().raises.Some?)
    ensures Faithful(Finish(Committing(s, plan), p, Some(Next(plan.Verdict()))))
  {
    assert plan in s.procs[p].plans;
    CommitHonest(s.procs[p].pc, plan, s.repo.store, s.remote, s.confirmed);
    CommittedFaithful(s, Finish(Committing(s, plan), p, Some(Next(plan.Verdict()))), p, plan.base.actionId,
                      Next(plan.Verdict()));
  }

  lemma CommitContinues(s: System, p: nat, plan: Plan)
    requires Faithful(s) && AtCommit(s, p, plan) && |s.procs[p].plans| > 1
    ensures Faithful(WithProc(Committing(s, plan), p, Proc(s.procs[p].pc, s.procs[p].plans[1..])))
  {
    var rest := Proc(s.procs[p].pc, s.procs[p].plans[1..]);
    assert plan in s.procs[p].plans && forall x <- rest.plans :: x in s.procs[p].plans;
    CommitHonest(s.procs[p].pc, plan, s.repo.store, s.remote, s.confirmed);
    CommittedFaithful(s, WithProc(Committing(s, plan), p, rest), p, plan.base.actionId, Next(plan.Verdict()));
  }

  lemma AfterSwapFaithful(s: System, p: nat, plan: Plan, fault: Fault)
    requires Faithful(s) && AtCommit(s, p, plan)
    ensures Faithful(AfterSwap(Committing(s, plan), p, plan, fault))
  {
    if fault == AfterCommit || (plan.Verdict().Write? && plan.Verdict().raises.Some?) {
      CommitRaises(s, p, plan);
    } else if |s.procs[p].plans| > 1 {
      CommitContinues(s, p, plan);
    } else {
      CommitReturns(s, p, plan);
    }
  }

  lemma SwapFaithful(s: System, p: nat, fault: Fault, uuid: int, clock: Instant)
    requires Faithful(s) && Exclusive(s.procs) && SwapSound(s, p)
    requires p in s.procs ==> forall plan <- s.procs[p].plans :: PlanFits(s.procs[p].pc, plan)
    requires p in s.procs && !s.procs[p].pc.Free? ==> |s.procs[p].plans| <= 1
    ensures Faithful(ExecSwap(s, p, fault, uuid, clock))
  {
    var proc := ProcOf(s, p);
    if proc.plans == [] || !ReadyToSwap(proc.plans[0]) {
      return;
    }
    var plan := proc.plans[0];
    assert plan in proc.plans;
    if fault == BeforeCommit || s.repo.store.Replace(Next(plan.Verdict()), plan.base.version).Raise? {
      RaiseFaithful(s, p);
    } else {
      AfterSwapFaithful(s, p, plan, fault);
    }
  }

  // ---------- the remaining steps ----------

  lemma PrepareFaithful(s: System, step: Step)
    requires Faithful(s) && step.Prepare?
    ensures Faithful(Exec(s, step))
  {
    var s1 := Exec(s, step);
    if s1.repo != s.repo {
      forall q | q in s1.procs
        ensures PcHonest(s1.procs[q].pc, s1.repo.store, s.remote, s.confirmed)
      {
        assert PcHonest(s.procs[q].pc, s.repo.store, s.remote, s.confirmed);
      }
      forall r | r in s.reports
        ensures ReportHonest(s1.repo.store, r)
      {
        assert ReportHonest(s.repo.store, r);
      }
    }
  }

  /** The owner's private step: the store stands still, its remote record may change. */
  lemma OwnerFaithful(s: System, p: nat, pc: Pc, sent: seq<Id>, remote: map<Id, Remote>, confirmed: set<Id>)
    requires Faithful(s) && Exclusive(s.procs) && p in s.procs && Owner(s.procs[p].pc).Some?
    requires var id := Owner(s.procs[p].pc).value;
             && id in s.repo.store.actions
             && (forall i :: i != id ==> (i in remote <==> i in s.remote) && (i in remote ==> remote[i] == s.remote[i]))
             && (forall i :: i != id ==> (i in confirmed <==> i in s.confirmed))
             && StatusHonest(s.repo.store.actions[id].status, id, remote, confirmed)
             && (Owner(pc).None? || Owner(pc) == Some(id))
    requires PcHonest(pc, s.repo.store, remote, confirmed)
    requires forall id :: id in remote <==> id in sent
    ensures Faithful(WithProc(s, p, Proc(pc, [])).(dispatches := sent, remote := remote, confirmed := confirmed))
  {
    var id := Owner(s.procs[p].pc).value;
    forall q | q in s.procs && q != p
      ensures PcHonest(s.procs[q].pc, s.repo.store, remote, confirmed)
    {
      PcUntouched(s.procs[q].pc, id, s.repo.store, s.remote, s.confirmed, remote, confirmed);
    }
    forall other | other in s.repo.store.actions
      ensures StatusHonest(s.repo.store.actions[other].status, other, remote, confirmed)
    {
      assert StatusHonest(s.repo.store.actions[other].status, other, s.remote, s.confirmed);
    }
  }

  /** What a process knows about its action does not change with another action. */
  lemma PcUntouched(pc: Pc, id: Id, st: MemoryStore.Store, remote: map<Id, Remote>, confirmed: set<Id>,
                    remote1: map<Id, Remote>, confirmed1: set<Id>)
    requires PcHonest(pc, st, remote, confirmed) && Owner(pc) != Some(id)
    requires forall i :: i != id ==> (i in remote1 <==> i in remote) && (i in remote1 ==> remote1[i] == remote[i])
    requires forall i :: i != id ==> (i in confirmed1 <==> i in confirmed)
    ensures PcHonest(pc, st, remote1, confirmed1)
  {
  }

  lemma DispatchFaithful(s: System, p: nat)
    requires Faithful(s) && Exclusive(s.procs) && p in s.procs && s.procs[p].pc.Claimed?
    ensures Faithful(Exec(s, Dispatch(p)))
  {
    var id := s.procs[p].pc.id;
    assert PcHonest(s.procs[p].pc, s.repo.store, s.remote, s.confirmed);
    OwnerFaithful(s, p, InFlight(id), s.dispatches + [id], s.remote[id := Running], s.confirmed);
  }

  lemma AnswerFaithful(s: System, p: nat, outcome: Remote)
    requires Faithful(s) && Exclusive(s.procs) && p in s.procs && s.procs[p].pc.InFlight? && !outcome.Running?
    ensures Faithful(Exec(s, RemoteAnswers(p, outcome)))
  {
    var id := s.procs[p].pc.id;
    assert PcHonest(s.procs[p].pc, s.repo.store, s.remote, s.confirmed);
    var next := match outcome
                case Returned(v) => Persisting(id, v)
                case Ambiguous => Marking(id)
                case _ => Failing(id);
    OwnerFaithful(s, p, next, s.dispatches, s.remote[id := outcome], s.confirmed);
  }

  lemma ReadBackFaithful(s: System, p: nat, applied: bool)
    requires Faithful(s) && Exclusive(s.procs) && p in s.procs && s.procs[p].pc.Asking?
    ensures Faithful(Exec(s, ReadBack(p, applied)))
  {
    var id := s.procs[p].pc.id;
    assert PcHonest(s.procs[p].pc, s.repo.store, s.remote, s.confirmed);
    if applied {
      OwnerFaithful(s, p, Promoting(id), s.dispatches, s.remote, s.confirmed + {id});
    } else {
      OwnerFaithful(s, p, Free, s.dispatches, s.remote, s.confirmed);
      assert ReportHonest(s.repo.store, (id, Unknown));
    }
  }

  lemma AbortFaithful(s: System, p: nat)
    requires Faithful(s) && p in s.procs && s.procs[p].pc.Claimed?
    ensures Faithful(Exec(s, AbortPreparation(p)))
  {
    assert PcHonest(s.procs[p].pc, s.repo.store, s.remote, s.confirmed);
    InstallFaithful(s, p, Proc(Aborting(s.procs[p].pc.id), []));
  }

  lemma CriticalFaithful(s: System, step: Step)
    requires Faithful(s) && Exclusive(s.procs)
    requires step.AbortPreparation? || step.Dispatch? || step.RemoteAnswers? || step.ReadBack?
    ensures Faithful(Exec(s, step))
  {
    if Exec(s, step) != s {
      match step
      case AbortPreparation(p) => AbortFaithful(s, p);
      case Dispatch(p) => DispatchFaithful(s, p);
      case RemoteAnswers(p, outcome) => AnswerFaithful(s, p, outcome);
      case ReadBack(p, applied) => ReadBackFaithful(s, p, applied);
      case _ =>
    }
  }

  lemma StepFaithful(s: System, step: Step)
    requires Inv(s) && Faithful(s) && DisciplinedStep(s, step)
    ensures Faithful(Exec(s, step))
  {
    match step
    case Prepare(_, _, _, _) => PrepareFaithful(s, step);
    case Call(p, op, enabled, id, now, readFails) => CallFaithful(s, p, op, enabled, id, now, readFails);
    case CallExpire(p, ids, now) =>
      ExpiryPlansHonest(s.repo, ids, now);
      InstallFaithful(s, p, Proc(Free, ExpiryPlans(s.repo, ids, now)));
    case ClaimKey(p, fault) => ClaimFaithful(s, p, fault);
    case Swap(p, fault, uuid, clock) =>
      SwapsAreSound(s, p);
      assert p in s.procs ==> ProcInv(s.repo.store, s.dispatches, s.procs[p]);
      SwapFaithful(s, p, fault, uuid, clock);
    case Crash(p) => InstallFaithful(s, p, Proc(Free, []));
    case _ => CriticalFaithful(s, step);
  }

  lemma {:induction false} RunsAreFaithful(steps: seq<Step>)
    requires Disciplined(MEMORY, steps)
    ensures Faithful(Run(MEMORY, steps))
  {
    if steps != [] {
      var before := steps[..|steps| - 1];
      forall k | 0 <= k < |before|
        ensures DisciplinedStep(Run(MEMORY, before[..k]), before[k])
      {
        assert before[..k] == steps[..k];
      }
      RunsAreFaithful(before);
      RunsKeepInv(before);
      StepFaithful(Run(MEMORY, before), steps[|steps| - 1]);
    }
  }

  /** After dic.execute returned or raised an ambiguous error, the stored status is
      EXECUTING, SUCCEEDED or UNKNOWN, whatever persistence did; SUCCEEDED needs a
      verified postcondition or a confirming read-back; RECONCILED_NOT_APPLIED is
      never written; and what a critical section reports is what is stored,
      except that an UNKNOWN report may have been promoted since. */
  lemma OutcomeFidelity(steps: seq<Step>)
    requires Disciplined(MEMORY, steps)
    ensures var s := Run(MEMORY, steps);
            && s.repo.Memory?
            && (forall id :: id in s.remote <==> id in s.dispatches)
            && (forall id <- s.remote :: id in s.repo.store.actions)
            && (forall id <- s.remote :: MayBeApplied(id, s.remote) ==>
                  s.repo.store.actions[id].status.Executing? || s.repo.store.actions[id].status.Succeeded?
                  || s.repo.store.actions[id].status.Unknown?)
            && (forall id <- s.repo.store.actions :: s.repo.store.actions[id].status == Succeeded ==>
                  VerifiedApplied(id, s.remote, s.confirmed))
            && (forall id <- s.repo.store.actions :: s.repo.store.actions[id].status == Failed ==>
                  id !in s.remote || s.remote[id] == OtherError)
            && (forall id <- s.repo.store.actions :: s.repo.store.actions[id].status != ReconciledNotApplied)
            && (forall r <- s.reports :: ReportHonest(s.repo.store, r))
  {
    RunsAreFaithful(steps);
  }
}
