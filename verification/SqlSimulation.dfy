/** The whole protocol over the database runs in lock step with the whole
    protocol over the dictionaries: same processes, same dispatches, same
    reports, same commits up to approval order. */
module SqlSimulation {
  import opened ApprovalModel
  import opened ApprovalProtocol
  import opened ApprovalSafety
  import opened Options
  import opened SqlRefinement
  import ApprovalOutcome
  import MemoryStore
  import SqlStore

  ghost predicate SameDecision(d: Decision, e: Decision) {
    match d
    case Refuse(error) => e == Refuse(error)
    case Write(next, raises) => e.Write? && e.raises == raises && Same(next, e.next)
    case ClaimThenWrite(next) => e.ClaimThenWrite? && Same(next, e.next)
  }

  ghost predicate SamePlan(x: Plan, y: Plan) {
    && x.op == y.op && x.enabled == y.enabled && x.now == y.now && x.claimed == y.claimed
    && Same(x.base, y.base)
  }

  ghost predicate SamePlans(xs: seq<Plan>, ys: seq<Plan>) {
    |xs| == |ys| && forall i :: 0 <= i < |xs| ==> SamePlan(xs[i], ys[i])
  }

  ghost predicate SameProc(x: Proc, y: Proc) {
    x.pc == y.pc && SamePlans(x.plans, y.plans)
  }

  ghost predicate SameProcs(xs: map<nat, Proc>, ys: map<nat, Proc>) {
    xs.Keys == ys.Keys && forall p <- xs :: SameProc(xs[p], ys[p])
  }

  /** The same value, written by the same call from the same read. */
  ghost predicate SameCommit(x: Commit, y: Commit) {
    && Same(x.value, y.value)
    && (x.cause.Some? <==> y.cause.Some?)
    && (y.cause.Some? ==> SamePlan(x.cause.value, y.cause.value))
  }

  ghost predicate SameCommits(xs: seq<Commit>, ys: seq<Commit>) {
    |xs| == |ys| && forall i :: 0 <= i < |xs| ==> SameCommit(xs[i], ys[i])
  }

  ghost predicate SameRepo(q: Repository, m: Repository) {
    && q.Sql? && m.Memory?
    && Represents(q.tables, m.store) && ReservedMatch(m.store)
  }

  /** Everything but the repository. */
  ghost predicate SameRest(q: System, m: System) {
    && SameProcs(q.procs, m.procs)
    && SameCommits(q.history, m.history)
    && q.grants == m.grants && q.dispatches == m.dispatches && q.remote == m.remote
    && q.confirmed == m.confirmed && q.reports == m.reports
  }

  /** `q` runs on the tables, `m` on the dictionaries. */
  ghost predicate Sim(q: System, m: System) {
    SameRepo(q.repo, m.repo) && SameRest(q, m)
  }

  // ---------- decisions do not see the order ----------

  lemma ApproversAlike(a: PendingAction, b: PendingAction, actor: Id)
    requires Same(a, b)
    ensures |a.approvals| == |b.approvals|
    ensures a.ApprovedBy(actor) <==> b.ApprovedBy(actor)
  {
    assert |multiset(a.approvals)| == |a.approvals| && |multiset(b.approvals)| == |b.approvals|;
    if a.ApprovedBy(actor) {
      var r :| r in a.approvals && r.approverId == actor;
      ApprovedAlike(a.approvals, b.approvals, r);
    }
    if b.ApprovedBy(actor) {
      var r :| r in b.approvals && r.approverId == actor;
      ApprovedAlike(b.approvals, a.approvals, r);
    }
  }

  lemma ApproveAlike(op: Op, a: PendingAction, b: PendingAction, now: Instant)
    requires Same(a, b) && op.Approve?
    ensures SameDecision(DecideApprove(op, a, now), DecideApprove(op, b, now))
  {
    ApproversAlike(a, b, op.actor);
    var r := ApprovalRecord(op.actor, now);
    assert multiset(a.approvals + [r]) == multiset(b.approvals + [r]);
  }

  lemma RejectAlike(op: Op, a: PendingAction, b: PendingAction, now: Instant)
    requires Same(a, b) && op.Reject?
    ensures SameDecision(DecideReject(op, a, now), DecideReject(op, b, now))
  {
    ApproversAlike(a, b, op.actor);
  }

  lemma BeginAlike(op: Op, a: PendingAction, b: PendingAction, now: Instant)
    requires Same(a, b) && op.Begin?
    ensures SameDecision(DecideBegin(op, a, now), DecideBegin(op, b, now))
  {
  }

  lemma DecideAlike(op: Op, enabled: bool, a: PendingAction, b: PendingAction, now: Instant)
    requires Same(a, b)
    ensures SameDecision(Decide(op, enabled, a, now), Decide(op, enabled, b, now))
  {
    if op.Approve? {
      ApproveAlike(op, a, b, now);
    } else if op.Reject? {
      RejectAlike(op, a, b, now);
    } else if op.Begin? {
      BeginAlike(op, a, b, now);
    }
  }

  /** The approval a decision appends, if it does. */
  function Added(op: Op, now: Instant, d: Decision): Option<ApprovalRecord> {
    if op.Approve? && d.Write? && d.raises == None then Some(ApprovalRecord(op.actor, now)) else None
  }

  lemma DecideExtends(op: Op, enabled: bool, a: PendingAction, now: Instant)
    requires !Decide(op, enabled, a, now).Refuse?
    ensures var d := Decide(op, enabled, a, now);
            Extended(a.approvals, Next(d).approvals, Added(op, now, d))
  {
  }

  // ---------- moves that leave the repository alone ----------

  lemma InstallSim(q: System, m: System, p: nat, x: Proc, y: Proc)
    requires SameRest(q, m) && SameProc(x, y)
    ensures SameRest(WithProc(q, p, x), WithProc(m, p, y))
  {
  }

  lemma ProcSim(q: System, m: System, p: nat)
    requires SameRest(q, m)
    ensures SameProc(ProcOf(q, p), ProcOf(m, p))
  {
  }

  lemma FinishSim(q: System, m: System, p: nat, x: Option<PendingAction>, y: Option<PendingAction>)
    requires SameRest(q, m) && (x.Some? <==> y.Some?) && (x.Some? ==> x.value.status == y.value.status)
    ensures SameRest(Finish(q, p, x), Finish(m, p, y))
  {
    ProcSim(q, m, p);
    var pc := ProcOf(m, p).pc;
    InstallSim(q, m, p, Proc(Resume(pc, x), []), Proc(Resume(pc, y), []));
  }

  /** Two reads that found the same thing. */
  ghost predicate SameFound(x: Option<PendingAction>, y: Option<PendingAction>) {
    (x.Some? <==> y.Some?) && (y.Some? ==> Same(x.value, y.value))
  }

  lemma ReadSim(q: System, m: System, p: nat, pc: Pc, op: Op, enabled: bool, now: Instant,
                x: Option<PendingAction>, y: Option<PendingAction>)
    requires SameRest(q, m) && SameFound(x, y)
    ensures SameRest(AfterRead(q, p, pc, op, enabled, now, x), AfterRead(m, p, pc, op, enabled, now, y))
  {
    InstallSim(q, m, p, Proc(pc, []), Proc(pc, []));
    FinishSim(WithProc(q, p, Proc(pc, [])), WithProc(m, p, Proc(pc, [])), p, None, None);
    if y.Some? {
      DecideAlike(op, enabled, x.value, y.value, now);
      InstallSim(q, m, p, Proc(pc, [Plan(op, enabled, now, x.value, false)]),
                 Proc(pc, [Plan(op, enabled, now, y.value, false)]));
    }
  }

  lemma CallKeepsRepo(s: System, p: nat, op: Op, enabled: bool, id: Id, now: Instant, readFails: bool)
    ensures ExecCall(s, p, op, enabled, id, now, readFails).repo == s.repo
  {
  }

  lemma CallSim(q: System, m: System, p: nat, op: Op, enabled: bool, id: Id, now: Instant, readFails: bool)
    requires SameRest(q, m) && SameFound(q.repo.Fetch(id), m.repo.Fetch(id))
    ensures SameRest(ExecCall(q, p, op, enabled, id, now, readFails), ExecCall(m, p, op, enabled, id, now, readFails))
  {
    ProcSim(q, m, p);
    var entry := Entry(ProcOf(m, p).pc, op, id);
    if entry.None? || ProcOf(m, p).plans != [] {
      return;
    }
    var x := if readFails then None else q.repo.Fetch(id);
    var y := if readFails then None else m.repo.Fetch(id);
    ReadSim(q, m, p, entry.value, op, enabled, now, x, y);
    assert ExecCall(q, p, op, enabled, id, now, readFails) == AfterRead(q, p, entry.value, op, enabled, now, x);
    assert ExecCall(m, p, op, enabled, id, now, readFails) == AfterRead(m, p, entry.value, op, enabled, now, y);
  }

  lemma {:induction false} ExpirySim(q: Repository, m: Repository, ids: seq<Id>, now: Instant)
    requires forall id :: SameFound(q.Fetch(id), m.Fetch(id))
    ensures SamePlans(ExpiryPlans(q, ids, now), ExpiryPlans(m, ids, now))
  {
    if ids == [] {
      return;
    }
    ExpirySim(q, m, ids[1..], now);
    var x, y := q.Fetch(ids[0]), m.Fetch(ids[0]);
    assert SameFound(x, y);
    if y.Some? {
      DecideAlike(Expire, true, x.value, y.value, now);
      PlansCons(Plan(Expire, true, now, x.value, false), Plan(Expire, true, now, y.value, false),
                ExpiryPlans(q, ids[1..], now), ExpiryPlans(m, ids[1..], now));
    }
  }

  lemma PlansCons(x: Plan, y: Plan, xs: seq<Plan>, ys: seq<Plan>)
    requires SamePlan(x, y) && SamePlans(xs, ys)
    ensures SamePlans([x] + xs, [y] + ys)
  {
  }

  lemma PlansTail(xs: seq<Plan>, ys: seq<Plan>)
    requires SamePlans(xs, ys) && xs != []
    ensures SamePlan(xs[0], ys[0]) && SamePlans(xs[1..], ys[1..])
    ensures SameDecision(xs[0].Verdict(), ys[0].Verdict())
  {
    DecideAlike(xs[0].op, xs[0].enabled, xs[0].base, ys[0].base, xs[0].now);
  }

  // ---------- repository calls ----------

  lemma FetchSim(q: Repository, m: Repository, id: Id)
    requires SameRepo(q, m) && StoreInv(m.store)
    ensures SameFound(q.Fetch(id), m.Fetch(id))
  {
    GetRefines(q.tables, m.store, id);
  }

  lemma TakeSim(q: Repository, m: Repository, plan: Plan)
    requires SameRepo(q, m) && StoreInv(m.store) && PlanInv(m.store, plan)
    ensures SameTaken(q.Take(plan.base.idempotencyKey, plan.base.actionId),
                      m.Take(plan.base.idempotencyKey, plan.base.actionId))
  {
    assert SameIdentity(plan.base, m.store.actions[plan.base.actionId]);
    ClaimRefines(q.tables, m.store, plan.base.idempotencyKey, plan.base.actionId);
    ReservedTaken(m.store, plan.base.idempotencyKey, plan.base.actionId);
  }

  ghost predicate SameTaken(x: Option<Repository>, y: Option<Repository>) {
    (x.Some? <==> y.Some?) && (y.Some? ==> SameRepo(x.value, y.value))
  }

  /** Equal outcomes; a failure is always the version conflict. */
  ghost predicate SamePut(x: Result<Repository>, y: Result<Repository>) {
    match y
    case Ok(m) => x.Ok? && SameRepo(x.value, m)
    case Raise(_) => x == Raise(ConcurrentUpdate)
  }

  lemma ReservedTaken(st: MemoryStore.Store, key: string, id: Id)
    requires ReservedMatch(st)
    ensures st.Claim(key, id).Some? ==> ReservedMatch(st.Claim(key, id).value)
  {
  }

  lemma ReservedPut(st: MemoryStore.Store, next: PendingAction, version: int)
    requires ReservedMatch(st) && st.Replace(next, version).Ok?
    requires SameIdentity(st.actions[next.actionId], next)
    ensures ReservedMatch(st.Replace(next, version).value)
  {
  }

  lemma ReservedAdded(st: MemoryStore.Store, a: PendingAction)
    requires ReservedMatch(st) && st.Insert(a).Ok?
    ensures ReservedMatch(st.Insert(a).value)
  {
  }

  /** The two writes of one plan. */
  lemma WritesAlike(x: Plan, y: Plan)
    requires SamePlan(x, y) && PlanLegal(y)
    ensures SameDecision(x.Verdict(), y.Verdict()) && Same(Next(x.Verdict()), Next(y.Verdict()))
    ensures Extended(x.base.approvals, Next(x.Verdict()).approvals, Added(y.op, y.now, y.Verdict()))
    ensures Extended(y.base.approvals, Next(y.Verdict()).approvals, Added(y.op, y.now, y.Verdict()))
    ensures Succeeds(y.base, Next(y.Verdict())) && WellFormed(Next(y.Verdict()))
  {
    DecideAlike(x.op, x.enabled, x.base, y.base, x.now);
    DecideExtends(x.op, x.enabled, x.base, x.now);
    DecideExtends(y.op, y.enabled, y.base, y.now);
    DecisionsAreLegal(y.op, y.enabled, y.base, y.now);
  }

  lemma PutSim(q: Repository, m: Repository, x: Plan, y: Plan, uuid: int, clock: Instant)
    requires SameRepo(q, m) && StoreInv(m.store) && PlanInv(m.store, y) && ReadyToSwap(y) && SamePlan(x, y)
    ensures !x.Verdict().Refuse?
    ensures SamePut(q.Put(Next(x.Verdict()), x.base.version, uuid, clock),
                    m.Put(Next(y.Verdict()), y.base.version, uuid, clock))
  {
    WritesAlike(x, y);
    var version := y.base.version;
    if m.store.Replace(Next(y.Verdict()), version).Ok? {
      SwapIsLegal(m.store, y);
      ExecutionClaimed(m.store.Replace(Next(y.Verdict()), version).value, y.base.actionId);
      PutOk(q.tables, m.store, Next(x.Verdict()), Next(y.Verdict()), x.base.approvals,
            Added(y.op, y.now, y.Verdict()), version, uuid, clock);
    } else {
      ReplaceConflicts(q.tables, m.store, Next(y.Verdict()), Next(x.Verdict()), version, uuid, clock);
    }
  }

  lemma PutOk(t: SqlStore.Tables, st: MemoryStore.Store, write: PendingAction, next: PendingAction,
              read: seq<ApprovalRecord>, added: Option<ApprovalRecord>, version: int, uuid: int, clock: Instant)
    requires StoreInv(st) && Represents(t, st) && ReservedMatch(st) && st.Replace(next, version).Ok?
    requires Succeeds(st.actions[next.actionId], next) && WellFormed(next) && Same(write, next)
    requires Execution(next.status) ==> next.idempotencyKey in st.claims
    requires multiset(read) == multiset(st.actions[next.actionId].approvals)
    requires Extended(read, write.approvals, added)
             && Extended(st.actions[next.actionId].approvals, next.approvals, added)
    ensures t.Replace(write, version, uuid, clock).Ok?
    ensures SameRepo(Sql(t.Replace(write, version, uuid, clock).value), Memory(st.Replace(next, version).value))
  {
    ReservedPut(st, next, version);
    ReplaceRefines(t, st, next, write, read, added, version, uuid, clock);
  }

  lemma ExecutionClaimed(st: MemoryStore.Store, id: Id)
    requires StoreInv(st) && id in st.actions
    ensures Execution(st.actions[id].status) ==> st.actions[id].idempotencyKey in st.claims
  {
  }

  // ---------- the steps ----------

  /** Both systems kept their repository, or both took the new one. */
  ghost predicate MovedTogether(q: Repository, m: Repository, q1: Repository, m1: Repository,
                                x: Option<Repository>, y: Option<Repository>) {
    (q1 == q && m1 == m) || (x == Some(q1) && y == Some(m1))
  }

  function Kept(r: Result<Repository>): Option<Repository> {
    match r case Ok(repo) => Some(repo) case Raise(_) => None
  }

  lemma ClaimSim(q: System, m: System, p: nat, fault: Fault)
    requires SameRest(q, m)
    requires ProcOf(m, p).plans != []
    requires var base := ProcOf(m, p).plans[0].base;
             q.repo.Take(base.idempotencyKey, base.actionId).Some? <==> m.repo.Take(base.idempotencyKey, base.actionId).Some?
    ensures SameRest(ExecClaim(q, p, fault), ExecClaim(m, p, fault))
    ensures var base := ProcOf(m, p).plans[0].base;
            MovedTogether(q.repo, m.repo, ExecClaim(q, p, fault).repo, ExecClaim(m, p, fault).repo,
                          q.repo.Take(base.idempotencyKey, base.actionId), m.repo.Take(base.idempotencyKey, base.actionId))
  {
    ProcSim(q, m, p);
    var xs, ys := ProcOf(q, p).plans, ProcOf(m, p).plans;
    PlansTail(xs, ys);
    FinishSim(q, m, p, None, None);
    var key, id := ys[0].base.idempotencyKey, ys[0].base.actionId;
    if m.repo.Take(key, id).Some? {
      var q1 := q.(repo := q.repo.Take(key, id).value, grants := q.grants + [key]);
      var m1 := m.(repo := m.repo.Take(key, id).value, grants := m.grants + [key]);
      FinishSim(q1, m1, p, None, None);
      PlansCons(xs[0].(claimed := true), ys[0].(claimed := true), xs[1..], ys[1..]);
      InstallSim(q1, m1, p, Proc(ProcOf(q, p).pc, [xs[0].(claimed := true)] + xs[1..]),
                 Proc(ProcOf(m, p).pc, [ys[0].(claimed := true)] + ys[1..]));
    }
  }

  lemma CommitsAppend(xs: seq<Commit>, ys: seq<Commit>, c: Commit, d: Commit)
    requires SameCommits(xs, ys) && SameCommit(c, d)
    ensures SameCommits(xs + [c], ys + [d])
  {
  }

  /** After the CAS: what the caller of either repository does next. */
  lemma SwapDone(q: System, m: System, p: nat, fault: Fault, xs: seq<Plan>, ys: seq<Plan>)
    requires SameRest(q, m) && xs == ProcOf(q, p).plans && ys == ProcOf(m, p).plans && ys != []
    requires !ys[0].Verdict().Refuse? && !xs[0].Verdict().Refuse? && SameDecision(xs[0].Verdict(), ys[0].Verdict())
    ensures SameRest(AfterSwap(q, p, xs[0], fault), AfterSwap(m, p, ys[0], fault))
    ensures AfterSwap(q, p, xs[0], fault).repo == q.repo && AfterSwap(m, p, ys[0], fault).repo == m.repo
  {
    ProcSim(q, m, p);
    PlansTail(xs, ys);
    FinishSim(q, m, p, None, None);
    FinishSim(q, m, p, Some(Next(xs[0].Verdict())), Some(Next(ys[0].Verdict())));
    InstallSim(q, m, p, Proc(ProcOf(q, p).pc, xs[1..]), Proc(ProcOf(m, p).pc, ys[1..]));
  }

  lemma SwapSim(q: System, m: System, p: nat, fault: Fault, uuid: int, clock: Instant)
    requires SameRest(q, m) && ProcOf(m, p).plans != [] && ReadyToSwap(ProcOf(m, p).plans[0])
    requires ProcOf(q, p).plans != [] && !ProcOf(q, p).plans[0].Verdict().Refuse?
    requires var x, y := ProcOf(q, p).plans[0], ProcOf(m, p).plans[0];
             q.repo.Put(Next(x.Verdict()), x.base.version, uuid, clock).Ok?
             <==> m.repo.Put(Next(y.Verdict()), y.base.version, uuid, clock).Ok?
    ensures SameRest(ExecSwap(q, p, fault, uuid, clock), ExecSwap(m, p, fault, uuid, clock))
    ensures var x, y := ProcOf(q, p).plans[0], ProcOf(m, p).plans[0];
            MovedTogether(q.repo, m.repo, ExecSwap(q, p, fault, uuid, clock).repo, ExecSwap(m, p, fault, uuid, clock).repo,
                          Kept(q.repo.Put(Next(x.Verdict()), x.base.version, uuid, clock)),
                          Kept(m.repo.Put(Next(y.Verdict()), y.base.version, uuid, clock)))
  {
    ProcSim(q, m, p);
    var xs, ys := ProcOf(q, p).plans, ProcOf(m, p).plans;
    PlansTail(xs, ys);
    FinishSim(q, m, p, None, None);
    var write, next := Next(xs[0].Verdict()), Next(ys[0].Verdict());
    var put := m.repo.Put(next, ys[0].base.version, uuid, clock);
    if put.Ok? {
      var q1 := q.(repo := q.repo.Put(write, xs[0].base.version, uuid, clock).value,
                   history := q.history + [Commit(write, Some(xs[0]))]);
      var m1 := m.(repo := put.value, history := m.history + [Commit(next, Some(ys[0]))]);
      CommitsAppend(q.history, m.history, Commit(write, Some(xs[0])), Commit(next, Some(ys[0])));
      SwapDone(q1, m1, p, fault, xs, ys);
    }
  }

  lemma CriticalSim(q: System, m: System, step: Step)
    requires SameRest(q, m)
    requires step.AbortPreparation? || step.Dispatch? || step.RemoteAnswers? || step.ReadBack? || step.Crash?
    ensures SameRest(Exec(q, step), Exec(m, step))
    ensures Exec(q, step).repo == q.repo && Exec(m, step).repo == m.repo
  {
    ProcSim(q, m, step.p);
  }

  // ---------- one step of the whole system ----------

  lemma CallStep(q: System, m: System, step: Step)
    requires Sim(q, m) && StoreInv(m.repo.store) && step.Call?
    ensures Sim(Exec(q, step), Exec(m, step))
  {
    FetchSim(q.repo, m.repo, step.id);
    CallSim(q, m, step.p, step.op, step.enabled, step.id, step.now, step.readFails);
    CallKeepsRepo(q, step.p, step.op, step.enabled, step.id, step.now, step.readFails);
    CallKeepsRepo(m, step.p, step.op, step.enabled, step.id, step.now, step.readFails);
  }

  lemma ExpireStep(q: System, m: System, step: Step)
    requires Sim(q, m) && StoreInv(m.repo.store) && step.CallExpire?
    ensures Sim(Exec(q, step), Exec(m, step))
  {
    forall id
      ensures SameFound(q.repo.Fetch(id), m.repo.Fetch(id))
    {
      FetchSim(q.repo, m.repo, id);
    }
    ProcSim(q, m, step.p);
    ExpirySim(q.repo, m.repo, step.ids, step.now);
    InstallSim(q, m, step.p, Proc(Free, ExpiryPlans(q.repo, step.ids, step.now)),
               Proc(Free, ExpiryPlans(m.repo, step.ids, step.now)));
  }

  lemma ClaimStep(q: System, m: System, step: Step)
    requires Sim(q, m) && StoreInv(m.repo.store) && step.ClaimKey?
    requires forall plan <- ProcOf(m, step.p).plans :: PlanInv(m.repo.store, plan)
    ensures Sim(Exec(q, step), Exec(m, step))
  {
    ProcSim(q, m, step.p);
    if ProcOf(m, step.p).plans != [] {
      TakeSim(q.repo, m.repo, ProcOf(m, step.p).plans[0]);
      ClaimSim(q, m, step.p, step.fault);
    }
  }

  lemma SwapStep(q: System, m: System, step: Step)
    requires Sim(q, m) && StoreInv(m.repo.store) && step.Swap?
    requires forall plan <- ProcOf(m, step.p).plans :: PlanInv(m.repo.store, plan)
    ensures Sim(Exec(q, step), Exec(m, step))
  {
    ProcSim(q, m, step.p);
    var xs, ys := ProcOf(q, step.p).plans, ProcOf(m, step.p).plans;
    if ys != [] {
      PlansTail(xs, ys);
      if ReadyToSwap(ys[0]) {
        PutSim(q.repo, m.repo, xs[0], ys[0], step.uuid, step.clock);
        SwapReady(q, m, step, xs[0], ys[0]);
      }
    }
  }

  lemma SwapReady(q: System, m: System, step: Step, x: Plan, y: Plan)
    requires Sim(q, m) && step.Swap? && ProcOf(q, step.p).plans != [] && ProcOf(m, step.p).plans != []
    requires x == ProcOf(q, step.p).plans[0] && y == ProcOf(m, step.p).plans[0]
    requires !x.Verdict().Refuse? && ReadyToSwap(y)
    requires SamePut(q.repo.Put(Next(x.Verdict()), x.base.version, step.uuid, step.clock),
                     m.repo.Put(Next(y.Verdict()), y.base.version, step.uuid, step.clock))
    ensures Sim(Exec(q, step), Exec(m, step))
  {
    SwapSim(q, m, step.p, step.fault, step.uuid, step.clock);
  }

  lemma AddSim(q: Repository, m: Repository, a: PendingAction, uuid: int, clock: Instant)
    requires SameRepo(q, m) && StoreInv(m.store) && Prepared(a)
    ensures q.Add(a, uuid, clock).Ok? <==> m.Add(a, uuid, clock).Ok?
    ensures m.Add(a, uuid, clock).Ok? ==> SameRepo(q.Add(a, uuid, clock).value, m.Add(a, uuid, clock).value)
  {
    InsertRefines(q.tables, m.store, a, uuid, clock);
    if m.store.Insert(a).Ok? {
      ReservedAdded(m.store, a);
    }
  }

  lemma PrepareSim(q: System, m: System, step: Step)
    requires SameRest(q, m) && step.Prepare?
    requires Prepared(step.action) ==>
               (q.repo.Add(step.action, step.uuid, step.clock).Ok? <==> m.repo.Add(step.action, step.uuid, step.clock).Ok?)
    ensures SameRest(Exec(q, step), Exec(m, step))
    ensures (Exec(q, step).repo == q.repo && Exec(m, step).repo == m.repo)
            || (Prepared(step.action)
                && q.repo.Add(step.action, step.uuid, step.clock) == Ok(Exec(q, step).repo)
                && m.repo.Add(step.action, step.uuid, step.clock) == Ok(Exec(m, step).repo))
  {
    CommitsAppend(q.history, m.history, Commit(step.action, None), Commit(step.action, None));
  }

  lemma PrepareStep(q: System, m: System, step: Step)
    requires Sim(q, m) && StoreInv(m.repo.store) && step.Prepare?
    ensures Sim(Exec(q, step), Exec(m, step))
  {
    if Prepared(step.action) {
      AddSim(q.repo, m.repo, step.action, step.uuid, step.clock);
    }
    PrepareSim(q, m, step);
  }

  lemma PlansInv(m: System, p: nat)
    requires Inv(m)
    ensures forall plan <- ProcOf(m, p).plans :: PlanInv(m.repo.store, plan)
  {
    if p in m.procs {
      assert ProcInv(m.repo.store, m.dispatches, m.procs[p]);
    }
  }

  lemma StepSim(q: System, m: System, step: Step)
    requires Sim(q, m) && Inv(m)
    ensures Sim(Exec(q, step), Exec(m, step))
  {
    match step
    case Prepare(_, _, _, _) => PrepareStep(q, m, step);
    case Call(_, _, _, _, _, _) => CallStep(q, m, step);
    case CallExpire(_, _, _) => ExpireStep(q, m, step);
    case ClaimKey(p, _) =>
      PlansInv(m, p);
      ClaimStep(q, m, step);
    case Swap(p, _, _, _) =>
      PlansInv(m, p);
      SwapStep(q, m, step);
    case _ => CriticalSim(q, m, step);
  }

  /** Every run on the database simulates the same run on the reference store. */
  lemma {:induction false} DatabaseSimulates(steps: seq<Step>)
    ensures Sim(Run(DATABASE, steps), Run(MEMORY, steps))
  {
    if steps != [] {
      var before := steps[..|steps| - 1];
      DatabaseSimulates(before);
      RunsKeepInv(before);
      StepSim(Run(DATABASE, before), Run(MEMORY, before), steps[|steps| - 1]);
    }
  }

  // ---------- consequences for the database ----------

  /** At-most-once execution and dispatch on the database. */
  lemma DatabaseExecutesAtMostOnce(steps: seq<Step>)
    ensures var s := Run(DATABASE, steps);
            && (forall i, j :: 0 <= i < j < |s.history|
                  && s.history[i].value.status == Executing && s.history[j].value.status == Executing
                  ==> s.history[i].value.actionId != s.history[j].value.actionId
                      && s.history[i].value.idempotencyKey != s.history[j].value.idempotencyKey)
            && Distinct(s.dispatches)
  {
    DatabaseSimulates(steps);
    AtMostOnceExecution(steps);
    var q, m := Run(DATABASE, steps), Run(MEMORY, steps);
    assert forall i :: 0 <= i < |q.history| ==> Same(q.history[i].value, m.history[i].value);
  }

  /** Separation of duty for every value the database ever committed: the whole
      predicate of the reference store, and approvals that only grow. */
  lemma DatabaseSeparatesDuty(steps: seq<Step>)
    ensures forall c <- Run(DATABASE, steps).history :: DutySeparated(c.value)
    ensures var h := Run(DATABASE, steps).history;
            forall i, j :: 0 <= i < j < |h| && h[i].value.actionId == h[j].value.actionId
              ==> Grows(h[i].value, h[j].value)
  {
    DatabaseSimulates(steps);
    MemorySeparatesDuty(steps);
    DutiesAlike(Run(DATABASE, steps).history, Run(MEMORY, steps).history);
    GrowthAlike(Run(DATABASE, steps).history, Run(MEMORY, steps).history);
  }

  ghost predicate OnlyGrowing(h: seq<Commit>) {
    forall i, j :: 0 <= i < j < |h| && h[i].value.actionId == h[j].value.actionId
      ==> h[i].value.approvals <= h[j].value.approvals && SameIdentity(h[i].value, h[j].value)
  }

  lemma MemorySeparatesDuty(steps: seq<Step>)
    ensures forall c <- Run(MEMORY, steps).history :: DutySeparated(c.value)
    ensures OnlyGrowing(Run(MEMORY, steps).history)
  {
    SeparationOfDuty(steps);
    RunsKeepInv(steps);
  }

  lemma DutiesAlike(q: seq<Commit>, m: seq<Commit>)
    requires SameCommits(q, m) && forall c <- m :: DutySeparated(c.value)
    ensures forall c <- q :: DutySeparated(c.value)
  {
    forall c | c in q
      ensures DutySeparated(c.value)
    {
      var i :| 0 <= i < |q| && q[i] == c;
      assert m[i] in m && SameCommit(q[i], m[i]);
      DutyAlike(c.value, m[i].value);
    }
  }

  lemma GrowthAlike(q: seq<Commit>, m: seq<Commit>)
    requires SameCommits(q, m) && OnlyGrowing(m)
    ensures forall i, j :: 0 <= i < j < |q| && q[i].value.actionId == q[j].value.actionId
              ==> Grows(q[i].value, q[j].value)
  {
    forall i, j | 0 <= i < j < |q| && q[i].value.actionId == q[j].value.actionId
      ensures Grows(q[i].value, q[j].value)
    {
      assert SameCommit(q[i], m[i]) && SameCommit(q[j], m[j]);
      GrowsAlike(q[i].value, q[j].value, m[i].value, m[j].value);
    }
  }

  /** `b` is about the same request as `a` and lost none of its approvals. */
  ghost predicate Grows(a: PendingAction, b: PendingAction) {
    SameIdentity(a, b) && multiset(a.approvals) <= multiset(b.approvals)
  }

  lemma GrowsAlike(a: PendingAction, b: PendingAction, x: PendingAction, y: PendingAction)
    requires Same(a, x) && Same(b, y)
    requires a.actionId == b.actionId ==> x.approvals <= y.approvals && SameIdentity(x, y)
    ensures a.actionId == b.actionId ==> Grows(a, b)
  {
    if a.actionId == b.actionId {
      assert y.approvals == x.approvals + y.approvals[|x.approvals|..];
    }
  }

  lemma CountTwice(rs: seq<ApprovalRecord>, i: nat, j: nat)
    requires i < j < |rs| && rs[i] == rs[j]
    ensures multiset(rs)[rs[i]] >= 2
  {
    assert rs == rs[..j] + rs[j..];
    assert rs[..j][i] in rs[..j] && rs[j..][0] in rs[j..];
  }

  lemma {:induction false} CountOnce(rs: seq<ApprovalRecord>, r: ApprovalRecord)
    requires DistinctApprovers(rs)
    ensures multiset(rs)[r] <= 1
  {
    if rs != [] {
      var n := |rs| - 1;
      assert rs == rs[..n] + [rs[n]];
      CountOnce(rs[..n], r);
      assert rs[n] !in rs[..n];
    }
  }

  lemma DistinctAlike(a: seq<ApprovalRecord>, b: seq<ApprovalRecord>)
    requires multiset(a) == multiset(b) && DistinctApprovers(b)
    ensures DistinctApprovers(a)
  {
    forall i, j | 0 <= i < j < |a|
      ensures a[i].approverId != a[j].approverId
    {
      if a[i] == a[j] {
        CountTwice(a, i, j);
        CountOnce(b, a[i]);
      }
      assert a[i] in multiset(b) && a[j] in multiset(b);
    }
  }

  lemma DutyAlike(a: PendingAction, b: PendingAction)
    requires Same(a, b) && DutySeparated(b)
    ensures DutySeparated(a)
  {
    DistinctAlike(a.approvals, b.approvals);
    ApproversAlike(a, b, a.requesterId);
    if a.rejectedBy.Some? {
      ApproversAlike(a, b, a.rejectedBy.value);
    }
  }

  predicate BoundedLife(a: PendingAction) {
    1 <= a.version <= a.approvalsRequired + 5
  }

  /** `b` may be a later value of the action `a`. */
  predicate Follows(a: PendingAction, b: PendingAction) {
    && a.version < b.version
    && !Terminal(a.status)
    && (a.status == Unknown ==> b.status == Succeeded || b.status == ReconciledNotApplied)
  }

  ghost predicate ForwardOnly(h: seq<Commit>) {
    && (forall i :: 0 <= i < |h| ==> BoundedLife(h[i].value))
    && (forall i, j :: 0 <= i < j < |h| && h[i].value.actionId == h[j].value.actionId ==> Follows(h[i].value, h[j].value))
  }

  lemma SameShows(a: PendingAction, b: PendingAction)
    requires Same(a, b)
    ensures a.version == b.version && a.status == b.status && a.actionId == b.actionId
    ensures a.approvalsRequired == b.approvalsRequired
  {
  }

  lemma ForwardAlike(xs: seq<Commit>, ys: seq<Commit>)
    requires SameCommits(xs, ys) && ForwardOnly(ys)
    ensures ForwardOnly(xs)
  {
    forall i | 0 <= i < |xs|
      ensures xs[i].value.version == ys[i].value.version && xs[i].value.status == ys[i].value.status
              && xs[i].value.actionId == ys[i].value.actionId
              && xs[i].value.approvalsRequired == ys[i].value.approvalsRequired
    {
      SameShows(xs[i].value, ys[i].value);
    }
  }

  lemma MemoryForwardOnly(steps: seq<Step>)
    ensures ForwardOnly(Run(MEMORY, steps).history)
  {
    LifeIsBounded(steps);
    OutcomesAreFinal(steps);
  }

  /** Bounded, forward-only lives of the values the database committed: versions
      grow and stay within approvals_required + 5, terminal statuses are never left. */
  lemma DatabaseLivesAreBounded(steps: seq<Step>)
    ensures ForwardOnly(Run(DATABASE, steps).history)
  {
    DatabaseSimulates(steps);
    MemoryForwardOnly(steps);
    ForwardAlike(Run(DATABASE, steps).history, Run(MEMORY, steps).history);
  }

  lemma DisciplineAlike(steps: seq<Step>)
    requires ApprovalOutcome.Disciplined(DATABASE, steps)
    ensures ApprovalOutcome.Disciplined(MEMORY, steps)
  {
    forall k | 0 <= k < |steps|
      ensures ApprovalOutcome.DisciplinedStep(Run(MEMORY, steps[..k]), steps[k])
    {
      assert ApprovalOutcome.DisciplinedStep(Run(DATABASE, steps[..k]), steps[k]);
      DatabaseSimulates(steps[..k]);
      if steps[k].Call? {
        ProcSim(Run(DATABASE, steps[..k]), Run(MEMORY, steps[..k]), steps[k].p);
      }
    }
  }

  /** Outcome fidelity as the database rows show it. */
  lemma DatabaseOutcomeFidelity(steps: seq<Step>)
    requires ApprovalOutcome.Disciplined(DATABASE, steps)
    ensures Run(DATABASE, steps).repo.Sql?
    ensures var s := Run(DATABASE, steps);
            var rows := s.repo.tables.actions;
            && (forall id <- s.remote :: id in rows)
            && (forall id <- s.remote :: ApprovalOutcome.MayBeApplied(id, s.remote) ==>
                  rows[id].status.Executing? || rows[id].status.Succeeded? || rows[id].status.Unknown?)
            && (forall id <- rows :: rows[id].status == Succeeded ==>
                  ApprovalOutcome.VerifiedApplied(id, s.remote, s.confirmed))
            && (forall id <- rows :: rows[id].status == Failed ==> id !in s.remote || s.remote[id] == OtherError)
            && (forall id <- rows :: rows[id].status != ReconciledNotApplied)
            && (forall r <- s.reports :: RowsBear(rows, r))
  {
    DisciplineAlike(steps);
    ApprovalOutcome.OutcomeFidelity(steps);
    DatabaseSimulates(steps);
    var q, m := Run(DATABASE, steps), Run(MEMORY, steps);
    StatusesAlike(q.repo.tables.actions, m.repo.store.actions);
    forall r | r in q.reports
      ensures RowsBear(q.repo.tables.actions, r)
    {
      assert ApprovalOutcome.ReportHonest(m.repo.store, r);
    }
  }

  /** A reported outcome is the stored one; UNKNOWN may have been promoted since. */
  predicate RowsBear(rows: map<Id, SqlStore.ActionRow>, r: (Id, Status)) {
    && r.0 in rows
    && (r.1 == Succeeded || r.1 == Unknown)
    && (r.1 == Succeeded ==> rows[r.0].status == Succeeded)
    && (r.1 == Unknown ==> rows[r.0].status == Succeeded || rows[r.0].status == Unknown)
  }

  lemma StatusesAlike(rows: map<Id, SqlStore.ActionRow>, actions: map<Id, PendingAction>)
    requires RowsMatch(rows, actions)
    ensures rows.Keys == actions.Keys && forall id <- rows :: rows[id].status == actions[id].status
  {
    forall id | id in rows
      ensures rows[id].status == actions[id].status
    {
      assert rows[id] == SqlStore.EncodeRow(actions[id]);
    }
  }

  /** A CAS on the database fails only because the action moved on: the unique
      constraints and the missing-claim error are unreachable in any run. */
  lemma OnlyConflictsFail(steps: seq<Step>, p: nat, uuid: int, clock: Instant)
    ensures var s := Run(DATABASE, steps);
            var plans := ProcOf(s, p).plans;
            plans != [] && ReadyToSwap(plans[0]) ==>
              var put := s.repo.Put(Next(plans[0].Verdict()), plans[0].base.version, uuid, clock);
              put.Raise? ==> put.error == ConcurrentUpdate
  {
    var q, m := Run(DATABASE, steps), Run(MEMORY, steps);
    DatabaseSimulates(steps);
    RunsKeepInv(steps);
    ProcSim(q, m, p);
    var xs, ys := ProcOf(q, p).plans, ProcOf(m, p).plans;
    if xs != [] && ReadyToSwap(xs[0]) {
      PlansTail(xs, ys);
      PlansInv(m, p);
      PutSim(q.repo, m.repo, xs[0], ys[0], uuid, clock);
    }
  }

  /** Everything stored in the database can be read back: the action of the
      reference store, exactly so when its approvals are in timestamp order. */
  lemma DatabaseReadsBack(steps: seq<Step>, id: Id)
    ensures Run(DATABASE, steps).repo.Sql? && Run(MEMORY, steps).repo.Memory?
    ensures var t, st := Run(DATABASE, steps).repo.tables, Run(MEMORY, steps).repo.store;
            && (id in t.actions <==> id in st.actions)
            && (id in t.actions ==>
                  && t.Get(id).Ok? && t.Get(id).value.Some?
                  && Same(t.Get(id).value.value, st.actions[id])
                  && (t.Get(id).value.value == st.actions[id]
                      <==> SqlStore.Sorted(ApprovedRows(SqlStore.RowsOf(t.approvals, id)))))
  {
    DatabaseSimulates(steps);
    RunsKeepInv(steps);
    ReadsBack(Run(DATABASE, steps).repo.tables, Run(MEMORY, steps).repo.store, id);
  }

  lemma ReadsBack(t: SqlStore.Tables, st: MemoryStore.Store, id: Id)
    requires Represents(t, st) && StoreInv(st)
    ensures id in t.actions <==> id in st.actions
    ensures id in t.actions ==>
              && t.Get(id).Ok? && t.Get(id).value.Some?
              && Same(t.Get(id).value.value, st.actions[id])
              && (t.Get(id).value.value == st.actions[id]
                  <==> SqlStore.Sorted(ApprovedRows(SqlStore.RowsOf(t.approvals, id))))
  {
    if id in st.actions {
      GetRefines(t, st, id);
      ExactOrder(t, st, id);
    }
  }

  /** What an execution row says of its action's row. */
  ghost predicate RowFits(x: SqlStore.ExecutionRow, row: SqlStore.ActionRow) {
    && x.idempotencyKey == row.idempotencyKey
    && (x.status == SqlStore.STARTED <==> row.status == Executing)
    && (x.uncertainOutcome <==> row.status == Unknown)
    && (row.status in {Succeeded, Failed, Unknown, ReconciledNotApplied} ==> x.status == SqlStore.Finished(row.status))
    && (row.status in {Executing, Succeeded, Failed, Unknown, ReconciledNotApplied} ==>
          x.result == row.executionResult && x.postcondition == row.postconditionResult)
    && (row.status !in {Executing, Succeeded, Failed, Unknown, ReconciledNotApplied} ==>
          x.status == SqlStore.CLAIMED && x.result == None && x.postcondition == None)
  }

  /** Every execution row says, column by column, what its action's row calls for. */
  lemma ExecutionRowsFollow(steps: seq<Step>)
    ensures var t := Run(DATABASE, steps).repo;
            && t.Sql?
            && (forall x <- t.tables.executions :: x.actionId in t.tables.actions && RowFits(x, t.tables.actions[x.actionId]))
  {
    DatabaseSimulates(steps);
    var t, st := Run(DATABASE, steps).repo.tables, Run(MEMORY, steps).repo.store;
    forall x | x in t.executions
      ensures x.actionId in t.actions && RowFits(x, t.actions[x.actionId])
    {
      RowFollows(t.actions, st.actions, t.executions, st, x);
    }
  }

  lemma RowFollows(rows: map<Id, SqlStore.ActionRow>, actions: map<Id, PendingAction>,
                   executions: seq<SqlStore.ExecutionRow>, st: MemoryStore.Store, x: SqlStore.ExecutionRow)
    requires RowsMatch(rows, actions) && ExecutionsMatch(executions, st) && actions == st.actions && x in executions
    ensures x.actionId in rows && RowFits(x, rows[x.actionId])
  {
    assert Mirrors(x, actions[x.actionId]);
    assert rows[x.actionId] == SqlStore.EncodeRow(actions[x.actionId]);
  }

  /** The columns of an action row. */
  ghost predicate Carries(row: SqlStore.ActionRow, a: PendingAction) {
    && row.requesterDiscordId == a.requesterId && row.envelope == a.envelope && row.stateFingerprint == a.stateFingerprint
    && row.status == a.status && row.createdAt == a.createdAt && row.expiresAt == a.expiresAt
    && row.approvalsRequired == a.approvalsRequired && row.approvalsReceived == |a.approvals|
    && row.confirmationConsumedAt == a.confirmationConsumedAt && row.idempotencyKey == a.idempotencyKey
    && Holds(row.executionResult, a.executionResult) && Holds(row.postconditionResult, a.postconditionResult)
    && row.rejectionReason == a.rejectionReason && row.version == a.version
  }

  /** A rejected action has a row with who rejected, when and why, any other has none. */
  ghost predicate RejectionCarried(rows: seq<SqlStore.ApprovalRow>, a: PendingAction) {
    if a.rejectedBy.Some? then
      exists x <- rows ::
        && x.actionId == a.actionId && x.decision == SqlStore.REJECTED && a.rejectedBy == Some(x.approverDiscordId)
        && a.rejectedAt == Some(x.createdAt) && x.redactedReason == a.rejectionReason
    else forall x <- rows :: x.actionId == a.actionId ==> x.decision == SqlStore.APPROVED
  }

  /** Every action row carries, column by column, the action of the reference run, and so
      does its rejection row. */
  lemma ActionRowsCarry(steps: seq<Step>, id: Id)
    ensures Run(DATABASE, steps).repo.Sql? && Run(MEMORY, steps).repo.Memory?
    ensures var t, st := Run(DATABASE, steps).repo.tables, Run(MEMORY, steps).repo.store;
            && (id in t.actions <==> id in st.actions)
            && (id in t.actions ==> Carries(t.actions[id], st.actions[id]))
            && (id in t.actions ==> RejectionCarried(t.approvals, st.actions[id]))
  {
    DatabaseSimulates(steps);
    RunsKeepInv(steps);
    RowCarries(Run(DATABASE, steps).repo.tables, Run(MEMORY, steps).repo.store, id);
  }

  lemma RowCarries(t: SqlStore.Tables, st: MemoryStore.Store, id: Id)
    requires Represents(t, st) && StoreInv(st)
    ensures id in t.actions <==> id in st.actions
    ensures id in t.actions ==> Carries(t.actions[id], st.actions[id])
    ensures id in t.actions ==> RejectionCarried(t.approvals, st.actions[id])
  {
    if id in st.actions {
      assert t.actions[id] == SqlStore.EncodeRow(st.actions[id]);
      assert DecisionsMatch(t.approvals, st.actions[id]);
    }
  }
}
