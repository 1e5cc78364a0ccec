/** What every interleaving keeps: at-most-once execution, separation of duty,
    the version bound, terminal states and freshness. */
module ApprovalSafety {
  import opened ApprovalModel
  import opened ApprovalProtocol
  import opened Options
  import MemoryStore

  /** Transitive closure of the status graph. */
  predicate CanReach(s: Status, t: Status) {
    match s
    case Pending => true
    case PartiallyApproved => t != Pending
    case Approved => t !in {Pending, PartiallyApproved, Approved}
    case Executing => t in {Succeeded, Failed, Unknown, ReconciledNotApplied}
    case Unknown => t in {Succeeded, ReconciledNotApplied}
    case _ => false
  }

  /** `a` was the stored value of an action at some time before `b` was. */
  ghost predicate Precedes(a: PendingAction, b: PendingAction) {
    && SameIdentity(a, b)
    && a.version < b.version
    && Rank(b) < Rank(a)
    && CanReach(a.status, b.status)
    && a.approvals <= b.approvals
  }

  ghost predicate UpTo(a: PendingAction, b: PendingAction) {
    a == b || Precedes(a, b)
  }

  lemma SucceedsExtends(a: PendingAction, b: PendingAction, c: PendingAction)
    requires UpTo(a, b) && Succeeds(b, c)
    ensures Precedes(a, c)
  {
    if a != b {
      assert CanReach(a.status, b.status) && Edge(b.status, c.status);
    }
  }

  // ---------- invariants ----------

  ghost predicate StoreInv(st: MemoryStore.Store) {
    && (forall id <- st.actions :: st.actions[id].actionId == id && WellFormed(st.actions[id]))
    && (forall id <- st.actions ::
          st.actions[id].idempotencyKey in st.reserved && st.reserved[st.actions[id].idempotencyKey] == id)
    && (forall id <- st.actions :: Execution(st.actions[id].status) ==> st.actions[id].idempotencyKey in st.claims)
  }

  /** The write of a plan is a decision on a well-formed value. */
  ghost predicate PlanLegal(plan: Plan) {
    WellFormed(plan.base) && !plan.Verdict().Refuse?
  }

  ghost predicate CommitLegal(c: Commit) {
    match c.cause
    case None => Prepared(c.value)
    case Some(plan) => PlanLegal(plan) && c.value == Next(plan.Verdict())
  }

  ghost predicate Stored(st: MemoryStore.Store, a: PendingAction) {
    a.actionId in st.actions && UpTo(a, st.actions[a.actionId])
  }

  ghost predicate HistoryInv(history: seq<Commit>, st: MemoryStore.Store) {
    && (forall c <- history :: CommitLegal(c) && WellFormed(c.value) && Stored(st, c.value))
    && (forall i, j :: 0 <= i < j < |history| && history[i].value.actionId == history[j].value.actionId
          ==> Precedes(history[i].value, history[j].value))
  }

  /** The action whose execution a process owns after begin_execution returned. */
  function Owner(pc: Pc): Option<Id> {
    match pc
    case Free => None
    case Claiming(_) => None
    case _ => Some(pc.id)
  }

  ghost predicate PlanInv(st: MemoryStore.Store, plan: Plan) {
    && PlanLegal(plan)
    && Stored(st, plan.base)
    && (plan.claimed ==> plan.base.idempotencyKey in st.claims)
  }

  /** The call a plan belongs to is the one its process may make at `pc`. */
  predicate PlanFits(pc: Pc, plan: Plan) {
    match pc
    case Free => !plan.op.Begin?
    case Claiming(id) => plan.base.actionId == id && plan.op.Begin?
    case _ => Entry(pc, plan.op, plan.base.actionId) == Some(pc)
  }

  ghost predicate ProcInv(st: MemoryStore.Store, dispatches: seq<Id>, proc: Proc) {
    && (forall plan <- proc.plans :: PlanInv(st, plan) && PlanFits(proc.pc, plan))
    && (!proc.pc.Free? ==> |proc.plans| <= 1)
    && (Owner(proc.pc).Some? ==>
          Owner(proc.pc).value in st.actions && Execution(st.actions[Owner(proc.pc).value].status))
    && (proc.pc.Claimed? ==> proc.pc.id !in dispatches)
  }

  ghost predicate Distinct<T>(s: seq<T>) {
    forall i, j :: 0 <= i < j < |s| ==> s[i] != s[j]
  }

  ghost predicate Exclusive(procs: map<nat, Proc>) {
    forall p, q | p in procs && q in procs && p != q && Owner(procs[p].pc).Some? ::
      Owner(procs[p].pc) != Owner(procs[q].pc)
  }

  ghost predicate GrantInv(grants: seq<string>, claims: map<string, Id>) {
    && Distinct(grants)
    && (forall key :: key in grants <==> key in claims)
  }

  ghost predicate Inv(s: System) {
    && s.repo.Memory?
    && StoreInv(s.repo.store)
    && HistoryInv(s.history, s.repo.store)
    && (forall p <- s.procs :: ProcInv(s.repo.store, s.dispatches, s.procs[p]))
    && Exclusive(s.procs)
    && Distinct(s.dispatches)
    && (forall id <- s.dispatches :: id in s.repo.store.actions && Execution(s.repo.store.actions[id].status))
    && GrantInv(s.grants, s.repo.store.claims)
  }

  // ---------- preservation ----------

  /** A store only moves forward. */
  ghost predicate Advances(st: MemoryStore.Store, st1: MemoryStore.Store) {
    && (forall id <- st.actions :: id in st1.actions
          && (st1.actions[id] == st.actions[id] || Succeeds(st.actions[id], st1.actions[id])))
    && (forall key <- st.claims :: key in st1.claims)
  }

  lemma StoredAdvances(st: MemoryStore.Store, st1: MemoryStore.Store, a: PendingAction)
    requires Advances(st, st1) && Stored(st, a)
    ensures Stored(st1, a)
  {
    var id := a.actionId;
    if st1.actions[id] != st.actions[id] {
      SucceedsExtends(a, st.actions[id], st1.actions[id]);
    }
  }

  lemma ProcAdvances(st: MemoryStore.Store, st1: MemoryStore.Store, dispatches: seq<Id>, proc: Proc)
    requires Advances(st, st1) && ProcInv(st, dispatches, proc)
    ensures ProcInv(st1, dispatches, proc)
  {
    forall plan | plan in proc.plans
      ensures PlanInv(st1, plan)
    {
      StoredAdvances(st, st1, plan.base);
    }
    if Owner(proc.pc).Some? {
      var id := Owner(proc.pc).value;
      assert st1.actions[id] == st.actions[id] || Edge(st.actions[id].status, st1.actions[id].status);
    }
  }

  /** Installing a process that owns nothing another process owns. */
  lemma InstallProc(s: System, p: nat, proc: Proc)
    requires Inv(s) && ProcInv(s.repo.store, s.dispatches, proc)
    requires Owner(proc.pc).None? || Owner(proc.pc) == Owner(ProcOf(s, p).pc)
             || (forall q <- s.procs :: q != p ==> Owner(s.procs[q].pc) != Owner(proc.pc))
    ensures Inv(WithProc(s, p, proc))
  {
  }

  lemma FinishRaised(s: System, p: nat)
    requires Inv(s)
    ensures Inv(Finish(s, p, None))
  {
    var pc := ProcOf(s, p).pc;
    InstallProc(s, p, Proc(Resume(pc, None), []));
  }

  lemma ProcsAdvance(st: MemoryStore.Store, st1: MemoryStore.Store, dispatches: seq<Id>, procs: map<nat, Proc>)
    requires Advances(st, st1) && forall p <- procs :: ProcInv(st, dispatches, procs[p])
    ensures forall p <- procs :: ProcInv(st1, dispatches, procs[p])
  {
    forall p | p in procs
      ensures ProcInv(st1, dispatches, procs[p])
    {
      ProcAdvances(st, st1, dispatches, procs[p]);
    }
  }

  lemma ExecutionStays(st: MemoryStore.Store, st1: MemoryStore.Store, ids: seq<Id>)
    requires Advances(st, st1) && forall id <- ids :: id in st.actions && Execution(st.actions[id].status)
    ensures forall id <- ids :: id in st1.actions && Execution(st1.actions[id].status)
  {
    forall id | id in ids
      ensures id in st1.actions && Execution(st1.actions[id].status)
    {
      assert st1.actions[id] == st.actions[id] || Edge(st.actions[id].status, st1.actions[id].status);
    }
  }

  /** The repository moved on, the history recorded it; processes keep their invariants. */
  lemma Advance(s: System, s1: System)
    requires Inv(s) && s1.repo.Memory? && StoreInv(s1.repo.store) && Advances(s.repo.store, s1.repo.store)
    requires HistoryInv(s1.history, s1.repo.store)
    requires s1.procs == s.procs && s1.dispatches == s.dispatches
    requires GrantInv(s1.grants, s1.repo.store.claims)
    ensures Inv(s1)
  {
    ProcsAdvance(s.repo.store, s1.repo.store, s.dispatches, s.procs);
    ExecutionStays(s.repo.store, s1.repo.store, s.dispatches);
  }

  lemma HistoryGrows(history: seq<Commit>, st: MemoryStore.Store, st1: MemoryStore.Store, c: Commit)
    requires HistoryInv(history, st) && Advances(st, st1)
    requires CommitLegal(c) && WellFormed(c.value) && c.value.actionId in st1.actions
    requires st1.actions[c.value.actionId] == c.value
    requires c.value.actionId in st.actions ==> Succeeds(st.actions[c.value.actionId], c.value)
    ensures HistoryInv(history + [c], st1)
  {
    var all := history + [c];
    forall d | d in all
      ensures CommitLegal(d) && WellFormed(d.value) && Stored(st1, d.value)
    {
      if d in history {
        StoredAdvances(st, st1, d.value);
      }
    }
    forall i, j | 0 <= i < j < |all| && all[i].value.actionId == all[j].value.actionId
      ensures Precedes(all[i].value, all[j].value)
    {
      if j == |history| {
        assert history[i] in history;
        SucceedsExtends(all[i].value, st.actions[c.value.actionId], c.value);
      }
    }
  }

  lemma PrepareKeeps(s: System, step: Step)
    requires Inv(s) && step.Prepare?
    ensures Inv(Exec(s, step))
  {
    var s1 := Exec(s, step);
    if s1 != s {
      PreparedIsWellFormed(step.action);
      HistoryGrows(s.history, s.repo.store, s1.repo.store, Commit(step.action, None));
      Advance(s, s1);
    }
  }

  /** The owner moves on inside the critical section, or lets go. */
  lemma OwnerMoves(s: System, p: nat, pc: Pc)
    requires Inv(s) && !pc.Claimed? && (Owner(pc).None? || Owner(pc) == Owner(ProcOf(s, p).pc))
    ensures Inv(WithProc(s, p, Proc(pc, [])))
  {
    assert p in s.procs ==> ProcInv(s.repo.store, s.dispatches, s.procs[p]);
    assert ProcInv(s.repo.store, s.dispatches, Proc(pc, []));
    InstallProc(s, p, Proc(pc, []));
  }

  lemma InstallPlan(s: System, p: nat, pc: Pc, plan: Plan)
    requires Inv(s) && PlanInv(s.repo.store, plan) && PlanFits(pc, plan)
    requires !pc.Claimed? && (Owner(pc).None? || Owner(pc) == Owner(ProcOf(s, p).pc))
    ensures Inv(WithProc(s, p, Proc(pc, [plan])))
  {
    assert p in s.procs ==> ProcInv(s.repo.store, s.dispatches, s.procs[p]);
    assert ProcInv(s.repo.store, s.dispatches, Proc(pc, [plan]));
    InstallProc(s, p, Proc(pc, [plan]));
  }

  lemma FoundFits(st: MemoryStore.Store, pc: Pc, op: Op, id: Id)
    requires StoreInv(st) && id in st.actions
    ensures WellFormed(st.actions[id]) && st.actions[id].actionId == id && Stored(st, st.actions[id])
  {
  }

  /** A call that may start leaves its process where that call belongs. */
  lemma EntryFits(pc: Pc, op: Op, id: Id)
    requires Entry(pc, op, id).Some?
    ensures var entered := Entry(pc, op, id).value;
            && !entered.Claimed? && (Owner(entered).None? || Owner(entered) == Owner(pc))
            && (forall plan: Plan :: plan.op == op && plan.base.actionId == id ==> PlanFits(entered, plan))
  {
  }

  lemma ReadKeeps(s: System, p: nat, pc: Pc, op: Op, enabled: bool, now: Instant, found: Option<PendingAction>)
    requires Inv(s) && !pc.Claimed? && (Owner(pc).None? || Owner(pc) == Owner(ProcOf(s, p).pc))
    requires found.Some? ==> WellFormed(found.value) && Stored(s.repo.store, found.value)
                             && PlanFits(pc, Plan(op, enabled, now, found.value, false))
    ensures Inv(AfterRead(s, p, pc, op, enabled, now, found))
  {
    if found.None? || Decide(op, enabled, found.value, now).Refuse? {
      OwnerMoves(s, p, pc);
      FinishRaised(WithProc(s, p, Proc(pc, [])), p);
    } else {
      InstallPlan(s, p, pc, Plan(op, enabled, now, found.value, false));
    }
  }

  lemma CallKeeps(s: System, p: nat, op: Op, enabled: bool, id: Id, now: Instant, readFails: bool)
    requires Inv(s)
    ensures Inv(ExecCall(s, p, op, enabled, id, now, readFails))
  {
    var entry := Entry(ProcOf(s, p).pc, op, id);
    if entry.Some? {
      if readFails || id !in s.repo.store.actions {
        ReadKeeps(s, p, entry.value, op, enabled, now, None);
      } else {
        FoundFits(s.repo.store, entry.value, op, id);
        EntryFits(ProcOf(s, p).pc, op, id);
        ReadKeeps(s, p, entry.value, op, enabled, now, Some(s.repo.store.actions[id]));
      }
    }
  }

  lemma ExpiryPlansFit(st: MemoryStore.Store, ids: seq<Id>, now: Instant)
    requires StoreInv(st)
    ensures forall plan <- ExpiryPlans(Memory(st), ids, now) :: PlanInv(st, plan) && plan.op.Expire?
  {
  }

  lemma HistoryStays(history: seq<Commit>, st: MemoryStore.Store, st1: MemoryStore.Store)
    requires HistoryInv(history, st) && Advances(st, st1)
    ensures HistoryInv(history, st1)
  {
    forall c | c in history
      ensures Stored(st1, c.value)
    {
      StoredAdvances(st, st1, c.value);
    }
  }

  lemma ClaimAdvances(st: MemoryStore.Store, plan: Plan)
    requires StoreInv(st) && PlanInv(st, plan) && plan.base.idempotencyKey !in st.claims
    ensures var st1 := st.Claim(plan.base.idempotencyKey, plan.base.actionId).value;
            StoreInv(st1) && Advances(st, st1) && PlanInv(st1, plan.(claimed := true))
  {
    var st1 := st.Claim(plan.base.idempotencyKey, plan.base.actionId).value;
    assert plan.(claimed := true).Verdict() == plan.Verdict();
    assert st.actions[plan.base.actionId].idempotencyKey == plan.base.idempotencyKey;
    assert st1.claims == st.claims[plan.base.idempotencyKey := plan.base.actionId];
  }

  lemma Granted(s: System, p: nat, plan: Plan)
    requires Inv(s) && p in s.procs && s.procs[p].plans != [] && plan == s.procs[p].plans[0]
    requires plan.base.idempotencyKey !in s.repo.store.claims
    ensures var key := plan.base.idempotencyKey;
            var granted := s.(repo := Memory(s.repo.store.Claim(key, plan.base.actionId).value),
                              grants := s.grants + [key]);
            Inv(granted)
            && Inv(WithProc(granted, p, Proc(s.procs[p].pc, [plan.(claimed := true)] + s.procs[p].plans[1..])))
  {
    var proc := s.procs[p];
    var key := plan.base.idempotencyKey;
    assert plan in proc.plans;
    ClaimAdvances(s.repo.store, plan);
    var st1 := s.repo.store.Claim(key, plan.base.actionId).value;
    var granted := s.(repo := Memory(st1), grants := s.grants + [key]);
    HistoryStays(s.history, s.repo.store, st1);
    Advance(s, granted);
    ProcAdvances(s.repo.store, st1, s.dispatches, proc);
    ClaimedProc(st1, s.dispatches, proc, plan.(claimed := true));
    InstallProc(granted, p, Proc(proc.pc, [plan.(claimed := true)] + proc.plans[1..]));
  }

  lemma ClaimedProc(st: MemoryStore.Store, dispatches: seq<Id>, proc: Proc, plan: Plan)
    requires ProcInv(st, dispatches, proc) && proc.plans != [] && PlanInv(st, plan)
    requires plan.op == proc.plans[0].op && plan.base == proc.plans[0].base
    ensures ProcInv(st, dispatches, Proc(proc.pc, [plan] + proc.plans[1..]))
  {
    assert proc.plans[0] in proc.plans;
    assert forall other <- [plan] + proc.plans[1..] :: other == plan || other in proc.plans;
  }

  lemma ClaimKeeps(s: System, step: Step)
    requires Inv(s) && step.ClaimKey?
    ensures Inv(Exec(s, step))
  {
    var proc := ProcOf(s, step.p);
    FinishRaised(s, step.p);
    if proc.plans != [] && step.fault != BeforeCommit {
      var plan := proc.plans[0];
      if plan.base.idempotencyKey !in s.repo.store.claims {
        Granted(s, step.p, plan);
        var key := plan.base.idempotencyKey;
        FinishRaised(s.(repo := Memory(s.repo.store.Claim(key, plan.base.actionId).value), grants := s.grants + [key]),
                     step.p);
      }
    }
  }

  /** A CAS that succeeds is one legal step from the currently stored value:
      equal versions mean equal values. */
  lemma SwapIsLegal(st: MemoryStore.Store, plan: Plan)
    requires StoreInv(st) && PlanInv(st, plan) && ReadyToSwap(plan)
    requires st.Replace(Next(plan.Verdict()), plan.base.version).Ok?
    ensures st.actions[plan.base.actionId] == plan.base
    ensures Succeeds(plan.base, Next(plan.Verdict())) && WellFormed(Next(plan.Verdict()))
    ensures StoreInv(st.Replace(Next(plan.Verdict()), plan.base.version).value)
    ensures Advances(st, st.Replace(Next(plan.Verdict()), plan.base.version).value)
  {
    DecisionsAreLegal(plan.op, plan.enabled, plan.base, plan.now);
    var next := Next(plan.Verdict());
    if Execution(next.status) && !Execution(plan.base.status) {
      assert Edge(plan.base.status, next.status);
      ExecutingNeedsFreshTarget(plan.op, plan.enabled, plan.base, plan.now);
    }
  }

  /** The system just after a successful CAS, before the caller hears of it. */
  lemma Committed(s: System, p: nat, plan: Plan)
    requires Inv(s) && p in s.procs && plan in s.procs[p].plans && ReadyToSwap(plan)
    requires s.repo.store.Replace(Next(plan.Verdict()), plan.base.version).Ok?
    ensures Inv(s.(repo := Memory(s.repo.store.Replace(Next(plan.Verdict()), plan.base.version).value),
                   history := s.history + [Commit(Next(plan.Verdict()), Some(plan))]))
    ensures plan.base.actionId in s.repo.store.actions && s.repo.store.actions[plan.base.actionId] == plan.base
    ensures Next(plan.Verdict()).actionId == plan.base.actionId
  {
    var next := Next(plan.Verdict());
    SwapIsLegal(s.repo.store, plan);
    var st1 := s.repo.store.Replace(next, plan.base.version).value;
    HistoryGrows(s.history, s.repo.store, st1, Commit(next, Some(plan)));
    Advance(s, s.(repo := Memory(st1), history := s.history + [Commit(next, Some(plan))]));
  }

  lemma SwapKeeps(s: System, p: nat, fault: Fault, uuid: int, clock: Instant)
    requires Inv(s)
    ensures Inv(ExecSwap(s, p, fault, uuid, clock))
  {
    var proc := ProcOf(s, p);
    if proc.plans == [] || !ReadyToSwap(proc.plans[0]) {
      return;
    }
    var plan := proc.plans[0];
    if fault == BeforeCommit || s.repo.store.Replace(Next(plan.Verdict()), plan.base.version).Raise? {
      FinishRaised(s, p);
      return;
    }
    Committed(s, p, plan);
    var next := Next(plan.Verdict());
    var committed := s.(repo := Memory(s.repo.store.Replace(next, plan.base.version).value),
                        history := s.history + [Commit(next, Some(plan))]);
    if fault == AfterCommit || (plan.Verdict().Write? && plan.Verdict().raises.Some?) {
      FinishRaised(committed, p);
    } else if |proc.plans| > 1 {
      Continue(committed, p);
    } else {
      SwapReturned(s, committed, p, plan, next);
    }
  }

  lemma Continue(s: System, p: nat)
    requires Inv(s) && p in s.procs && s.procs[p].plans != []
    ensures Inv(WithProc(s, p, Proc(s.procs[p].pc, s.procs[p].plans[1..])))
  {
    var proc := s.procs[p];
    var rest := Proc(proc.pc, proc.plans[1..]);
    assert forall plan <- rest.plans :: plan in proc.plans;
    assert ProcInv(s.repo.store, s.dispatches, rest);
    InstallProc(s, p, rest);
  }

  lemma BeginVerdict(plan: Plan)
    requires plan.op.Begin? && ReadyToSwap(plan) && !(plan.Verdict().Write? && plan.Verdict().raises.Some?)
    ensures plan.base.status == Approved && Next(plan.Verdict()).status == Executing
  {
  }

  lemma NobodyOwns(s: System, id: Id)
    requires Inv(s) && id in s.repo.store.actions && !Execution(s.repo.store.actions[id].status)
    ensures forall q <- s.procs :: Owner(s.procs[q].pc) != Some(id)
    ensures id !in s.dispatches
  {
    forall q | q in s.procs
      ensures Owner(s.procs[q].pc) != Some(id)
    {
      assert ProcInv(s.repo.store, s.dispatches, s.procs[q]);
    }
  }

  /** begin_execution returning makes its caller the only owner: nobody could own
      an action that was still APPROVED a moment ago. */
  lemma BeginReturned(s: System, committed: System, p: nat, id: Id)
    requires Inv(s) && Inv(committed) && committed.procs == s.procs && committed.dispatches == s.dispatches
    requires p in s.procs
    requires id in s.repo.store.actions && !Execution(s.repo.store.actions[id].status)
    requires id in committed.repo.store.actions && Execution(committed.repo.store.actions[id].status)
    ensures Inv(WithProc(committed, p, Proc(Claimed(id), [])))
  {
    NobodyOwns(s, id);
    assert ProcInv(committed.repo.store, committed.dispatches, Proc(Claimed(id), []));
    InstallProc(committed, p, Proc(Claimed(id), []));
  }

  lemma BeginPlan(s: System, p: nat, plan: Plan)
    requires Inv(s) && p in s.procs && plan in s.procs[p].plans && s.procs[p].pc.Claiming?
    requires ReadyToSwap(plan) && !(plan.Verdict().Write? && plan.Verdict().raises.Some?)
    ensures plan.base.actionId == s.procs[p].pc.id
    ensures plan.base.status == Approved && Next(plan.Verdict()).status == Executing
  {
    assert ProcInv(s.repo.store, s.dispatches, s.procs[p]);
    BeginVerdict(plan);
  }

  lemma FinishReturned(s: System, committed: System, p: nat, next: PendingAction)
    requires Inv(s) && Inv(committed) && committed.procs == s.procs && committed.dispatches == s.dispatches
    requires p in s.procs
    requires s.procs[p].pc.Claiming? ==>
               var id := s.procs[p].pc.id;
               && id in s.repo.store.actions && !Execution(s.repo.store.actions[id].status)
               && id in committed.repo.store.actions && Execution(committed.repo.store.actions[id].status)
    ensures Inv(Finish(committed, p, Some(next)))
  {
    var pc := s.procs[p].pc;
    if pc.Claiming? {
      BeginReturned(s, committed, p, pc.id);
    } else {
      OwnerMoves(committed, p, Resume(pc, Some(next)));
    }
  }

  lemma SwapReturned(s: System, committed: System, p: nat, plan: Plan, next: PendingAction)
    requires Inv(s) && Inv(committed) && committed.procs == s.procs && committed.dispatches == s.dispatches
    requires p in s.procs && plan in s.procs[p].plans
    requires ReadyToSwap(plan) && !(plan.Verdict().Write? && plan.Verdict().raises.Some?)
    requires next == Next(plan.Verdict())
    requires plan.base.actionId in s.repo.store.actions && s.repo.store.actions[plan.base.actionId] == plan.base
    requires plan.base.actionId in committed.repo.store.actions
             && committed.repo.store.actions[plan.base.actionId] == next
    ensures Inv(Finish(committed, p, Some(next)))
  {
    if s.procs[p].pc.Claiming? {
      BeginPlan(s, p, plan);
    }
    FinishReturned(s, committed, p, next);
  }

  lemma DispatchKeeps(s: System, p: nat, id: Id)
    requires Inv(s) && p in s.procs && s.procs[p].pc == Claimed(id)
    ensures Inv(WithProc(s, p, Proc(InFlight(id), [])).(dispatches := s.dispatches + [id],
                                                       remote := s.remote[id := Running]))
  {
    var sent := s.dispatches + [id];
    assert ProcInv(s.repo.store, s.dispatches, s.procs[p]);
    forall q | q in s.procs && q != p
      ensures ProcInv(s.repo.store, sent, s.procs[q])
    {
      assert Owner(s.procs[q].pc) != Some(id);
    }
    assert ProcInv(s.repo.store, sent, Proc(InFlight(id), []));
  }

  lemma CriticalKeeps(s: System, step: Step)
    requires Inv(s)
    requires step.AbortPreparation? || step.Dispatch? || step.RemoteAnswers? || step.ReadBack? || step.Crash?
    ensures Inv(Exec(s, step))
  {
    var pc := ProcOf(s, step.p).pc;
    match step
    case Dispatch(p) => if pc.Claimed? { DispatchKeeps(s, p, pc.id); }
    case AbortPreparation(p) => if pc.Claimed? { OwnerMoves(s, p, Aborting(pc.id)); }
    case RemoteAnswers(p, outcome) =>
      if pc.InFlight? && !outcome.Running? { OwnerMoves(s, p, ProcOf(Exec(s, step), p).pc); }
    case ReadBack(p, applied) =>
      if pc.Asking? { OwnerMoves(s, p, if applied then Promoting(pc.id) else Free); }
    case Crash(p) => OwnerMoves(s, p, Free);
  }

  lemma StepKeeps(s: System, step: Step)
    requires Inv(s)
    ensures Inv(Exec(s, step))
  {
    match step
    case Prepare(_, _, _, _) => PrepareKeeps(s, step);
    case Call(p, op, enabled, id, now, readFails) => CallKeeps(s, p, op, enabled, id, now, readFails);
    case CallExpire(p, ids, now) =>
      if ProcOf(s, p) == Proc(Free, []) {
        ExpiryPlansFit(s.repo.store, ids, now);
        InstallProc(s, p, Proc(Free, ExpiryPlans(s.repo, ids, now)));
      }
    case ClaimKey(_, _) => ClaimKeeps(s, step);
    case Swap(p, fault, uuid, clock) => SwapKeeps(s, p, fault, uuid, clock);
    case _ => CriticalKeeps(s, step);
  }

  lemma {:induction false} RunsKeepInv(steps: seq<Step>)
    ensures Inv(Run(MEMORY, steps))
  {
    if steps != [] {
      RunsKeepInv(steps[..|steps| - 1]);
      StepKeeps(Run(MEMORY, steps[..|steps| - 1]), steps[|steps| - 1]);
    }
  }

  // ---------- theorems over all runs ----------

  /** Each action, and each idempotency key, enters EXECUTING at most once, and
      dic.execute is called at most once per action. */
  lemma AtMostOnceExecution(steps: seq<Step>)
    ensures var s := Run(MEMORY, steps);
            && (forall i, j :: 0 <= i < j < |s.history|
                  && s.history[i].value.status == Executing && s.history[j].value.status == Executing
                  ==> s.history[i].value.actionId != s.history[j].value.actionId
                      && s.history[i].value.idempotencyKey != s.history[j].value.idempotencyKey)
            && Distinct(s.dispatches)
            && Distinct(s.grants)
  {
    RunsKeepInv(steps);
    var s := Run(MEMORY, steps);
    forall i, j | 0 <= i < j < |s.history|
                  && s.history[i].value.status == Executing && s.history[j].value.status == Executing
      ensures s.history[i].value.actionId != s.history[j].value.actionId
              && s.history[i].value.idempotencyKey != s.history[j].value.idempotencyKey
    {
      KeyIdentifies(s, s.history[i]);
      KeyIdentifies(s, s.history[j]);
    }
  }

  lemma KeyIdentifies(s: System, c: Commit)
    requires Inv(s) && c in s.history
    ensures c.value.idempotencyKey in s.repo.store.reserved
    ensures s.repo.store.reserved[c.value.idempotencyKey] == c.value.actionId
  {
    assert Stored(s.repo.store, c.value);
  }

  ghost predicate Entered(history: seq<Commit>, id: Id) {
    exists c <- history :: c.value.actionId == id && c.value.status == Executing
  }

  ghost predicate Traced(s: System) {
    && s.repo.Memory?
    && (forall id <- s.repo.store.actions ::
          Execution(s.repo.store.actions[id].status) ==> Entered(s.history, id))
  }

  /** Only a CAS changes a stored action; only preparation adds one. */
  lemma OtherStepsKeepActions(s: System, step: Step)
    requires s.repo.Memory? && !step.Swap?
    ensures var s1 := Exec(s, step);
            && s1.repo.Memory? && s.history <= s1.history
            && (s1.repo.store.actions == s.repo.store.actions
                || (step.Prepare? && Prepared(step.action)
                    && s1.repo.store.actions == s.repo.store.actions[step.action.actionId := step.action]))
  {
  }

  lemma EnteredGrows(history: seq<Commit>, longer: seq<Commit>, id: Id)
    requires Entered(history, id) && history <= longer
    ensures Entered(longer, id)
  {
  }

  lemma TraceSwap(st: MemoryStore.Store, history: seq<Commit>, plan: Plan, next: PendingAction)
    requires forall id <- st.actions :: Execution(st.actions[id].status) ==> Entered(history, id)
    requires plan.base.actionId in st.actions && st.actions[plan.base.actionId] == plan.base
    requires next.actionId == plan.base.actionId && Edge(plan.base.status, next.status)
    ensures var actions := st.actions[next.actionId := next];
            forall id <- actions ::
              Execution(actions[id].status) ==> Entered(history + [Commit(next, Some(plan))], id)
  {
    var longer := history + [Commit(next, Some(plan))];
    var actions := st.actions[next.actionId := next];
    assert longer[|history|] == Commit(next, Some(plan));
    forall id | id in actions && Execution(actions[id].status)
      ensures Entered(longer, id)
    {
      if id == next.actionId && next.status == Executing {
        assert Commit(next, Some(plan)) in longer;
      } else {
        EnteredGrows(history, longer, id);
      }
    }
  }

  /** If the next CAS of `p` succeeds, it is a legal step of the stored action. */
  ghost predicate SwapSound(s: System, p: nat) {
    s.repo.Memory? && (
      var plans := ProcOf(s, p).plans;
      plans != [] && ReadyToSwap(plans[0])
      && s.repo.store.Replace(Next(plans[0].Verdict()), plans[0].base.version).Ok? ==>
        && plans[0].base.actionId in s.repo.store.actions
        && s.repo.store.actions[plans[0].base.actionId] == plans[0].base
        && Succeeds(plans[0].base, Next(plans[0].Verdict())))
  }

  lemma SwapsAreSound(s: System, p: nat)
    requires Inv(s)
    ensures SwapSound(s, p)
  {
    var plans := ProcOf(s, p).plans;
    if plans != [] && ReadyToSwap(plans[0]) && s.repo.store.Replace(Next(plans[0].Verdict()), plans[0].base.version).Ok? {
      assert plans[0] in plans && ProcInv(s.repo.store, s.dispatches, s.procs[p]);
      SwapIsLegal(s.repo.store, plans[0]);
    }
  }

  lemma SwapTraced(s: System, p: nat, fault: Fault, uuid: int, clock: Instant)
    requires SwapSound(s, p) && Traced(s)
    ensures Traced(ExecSwap(s, p, fault, uuid, clock))
  {
    var plans := ProcOf(s, p).plans;
    if plans != [] && ReadyToSwap(plans[0]) && s.repo.store.Replace(Next(plans[0].Verdict()), plans[0].base.version).Ok? {
      TraceSwap(s.repo.store, s.history, plans[0], Next(plans[0].Verdict()));
    }
  }

  lemma StepKeepsTraced(s: System, step: Step)
    requires Inv(s) && Traced(s)
    ensures Traced(Exec(s, step))
  {
    if step.Swap? {
      SwapsAreSound(s, step.p);
      SwapTraced(s, step.p, step.fault, step.uuid, step.clock);
    } else {
      OtherStepsKeepActions(s, step);
      var s1 := Exec(s, step);
      forall id | id in s1.repo.store.actions && Execution(s1.repo.store.actions[id].status)
        ensures Entered(s1.history, id)
      {
        EnteredGrows(s.history, s1.history, id);
      }
    }
  }

  /** An execution claim is never conjured up: every action handed to dic.execute,
      and every action with an execution outcome, was committed as EXECUTING
      under a granted idempotency key. */
  lemma {:induction false} ExecutionsWereClaimed(steps: seq<Step>)
    ensures Traced(Run(MEMORY, steps))
    ensures var s := Run(MEMORY, steps);
            && (forall id <- s.dispatches :: Entered(s.history, id))
            && (forall c <- s.history :: c.value.status == Executing ==> c.value.idempotencyKey in s.grants)
  {
    if steps != [] {
      ExecutionsWereClaimed(steps[..|steps| - 1]);
      RunsKeepInv(steps[..|steps| - 1]);
      StepKeepsTraced(Run(MEMORY, steps[..|steps| - 1]), steps[|steps| - 1]);
    }
    RunsKeepInv(steps);
    ExecutingWasGranted(Run(MEMORY, steps));
  }

  lemma ExecutingWasGranted(s: System)
    requires Inv(s)
    ensures forall c <- s.history :: c.value.status == Executing ==> c.value.idempotencyKey in s.grants
  {
    forall c | c in s.history && c.value.status == Executing
      ensures c.value.idempotencyKey in s.grants
    {
      assert Stored(s.repo.store, c.value);
      assert Execution(s.repo.store.actions[c.value.actionId].status);
    }
  }

  /** Whoever is or ever was APPROVED was confirmed by the requester and approved
      by exactly the required number of distinct others; unconfirmed actions have
      no approvals to lose; a rejecter never approved; approvals only grow. */
  lemma SeparationOfDuty(steps: seq<Step>)
    ensures var s := Run(MEMORY, steps);
            forall c <- s.history ::
              && DistinctApprovers(c.value.approvals)
              && !c.value.ApprovedBy(c.value.requesterId)
              && ((c.value.status.Approved? || c.value.status.Stale? || Execution(c.value.status)) ==>
                    c.value.Confirmed() && |c.value.approvals| == c.value.approvalsRequired)
              && (!c.value.Confirmed() ==> c.value.approvals == [])
              && (c.value.status == Rejected <==> c.value.rejectedBy.Some?)
              && (c.value.rejectedBy.Some? ==> !c.value.ApprovedBy(c.value.rejectedBy.value))
    ensures var h := Run(MEMORY, steps).history;
            forall i, j :: 0 <= i < j < |h| && h[i].value.actionId == h[j].value.actionId
              ==> h[i].value.approvals <= h[j].value.approvals && SameIdentity(h[i].value, h[j].value)
  {
    RunsKeepInv(steps);
  }

  /** Every committed update raises the version by one from the value it read,
      strictly lowers the rank and follows the status graph, so no action is
      written more than approvals_required + 5 times. */
  lemma LifeIsBounded(steps: seq<Step>)
    ensures forall c <- Run(MEMORY, steps).history ::
              && 1 <= c.value.version <= c.value.approvalsRequired + 5
              && (c.cause.Some? ==> Succeeds(c.cause.value.base, c.value))
              && (c.cause.None? ==> c.value.version == 1)
    ensures var h := Run(MEMORY, steps).history;
            forall i, j :: 0 <= i < j < |h| && h[i].value.actionId == h[j].value.actionId
              ==> h[i].value.version < h[j].value.version && 0 <= Rank(h[j].value) < Rank(h[i].value)
  {
    RunsKeepInv(steps);
    var h := Run(MEMORY, steps).history;
    forall c | c in h
      ensures 0 <= Rank(c.value) && (c.cause.Some? ==> Succeeds(c.cause.value.base, c.value))
    {
      RankIsNatural(c.value);
      if c.cause.Some? {
        var plan := c.cause.value;
        DecisionsAreLegal(plan.op, plan.enabled, plan.base, plan.now);
      }
    }
  }

  /** Terminal statuses are never left; UNKNOWN is left only by reconciliation. */
  lemma OutcomesAreFinal(steps: seq<Step>)
    ensures var h := Run(MEMORY, steps).history;
            forall i, j :: 0 <= i < j < |h| && h[i].value.actionId == h[j].value.actionId
              ==> && !Terminal(h[i].value.status)
                  && (h[i].value.status == Unknown ==>
                        h[j].value.status == Succeeded || h[j].value.status == ReconciledNotApplied)
                  && (h[i].value.status == Executing ==> Execution(h[j].value.status))
  {
    RunsKeepInv(steps);
    var h := Run(MEMORY, steps).history;
    forall i, j | 0 <= i < j < |h| && h[i].value.actionId == h[j].value.actionId
      ensures !Terminal(h[i].value.status) && CanReach(h[i].value.status, h[j].value.status)
    {
      assert Precedes(h[i].value, h[j].value);
    }
  }

  /** EXECUTING is committed only by begin_execution with writes enabled, before
      expiry, and with the fingerprint recorded when the action was prepared. */
  lemma ExecutionIsFresh(steps: seq<Step>)
    ensures forall c <- Run(MEMORY, steps).history :: c.value.status == Executing ==>
              && c.cause.Some? && c.cause.value.op.Begin? && c.cause.value.enabled
              && c.cause.value.base.status == Approved
              && c.cause.value.now < c.value.expiresAt
              && c.cause.value.op.currentFingerprint == c.value.stateFingerprint
  {
    RunsKeepInv(steps);
    forall c | c in Run(MEMORY, steps).history && c.value.status == Executing
      ensures c.cause.Some? && c.cause.value.op.Begin? && c.cause.value.enabled
              && c.cause.value.base.status == Approved
              && c.cause.value.now < c.value.expiresAt
              && c.cause.value.op.currentFingerprint == c.value.stateFingerprint
    {
      assert CommitLegal(c);
      var plan := c.cause.value;
      ExecutingNeedsFreshTarget(plan.op, plan.enabled, plan.base, plan.now);
      DecisionsAreLegal(plan.op, plan.enabled, plan.base, plan.now);
    }
  }
}
