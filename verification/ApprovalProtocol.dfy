/** Any number of service instances over one repository, interleaved at the
    granularity of single repository calls.

    Each persistence call may fail before or after its commit, processes may
    crash anywhere, clocks are arbitrary, and the remote system answers as it
    likes.  No lock is assumed.  A run is a list of steps, so a statement about
    `Run(steps)` for all `steps` is a statement about every interleaving. */
module ApprovalProtocol {
  import opened ApprovalModel
  import opened Options
  import MemoryStore
  import SqlStore

  // ---------- the repository interface ----------

  datatype Repository = Memory(store: MemoryStore.Store) | Sql(tables: SqlStore.Tables)
  {
    function Fetch(id: Id): Option<PendingAction> {
      match this
      case Memory(s) => s.Get(id)
      case Sql(t) => (match t.Get(id) case Ok(found) => found case Raise(_) => None)
    }

    function Add(a: PendingAction, uuid: int, clock: Instant): Result<Repository> {
      match this
      case Memory(s) => (match s.Insert(a) case Ok(s1) => Ok(Memory(s1)) case Raise(e) => Raise(e))
      case Sql(t) => (match t.Insert(a, uuid, clock) case Ok(t1) => Ok(Sql(t1)) case Raise(e) => Raise(e))
    }

    function Put(a: PendingAction, expectedVersion: int, uuid: int, clock: Instant): Result<Repository> {
      match this
      case Memory(s) => (match s.Replace(a, expectedVersion) case Ok(s1) => Ok(Memory(s1)) case Raise(e) => Raise(e))
      case Sql(t) =>
        (match t.Replace(a, expectedVersion, uuid, clock) case Ok(t1) => Ok(Sql(t1)) case Raise(e) => Raise(e))
    }

    function Take(key: string, id: Id): Option<Repository> {
      match this
      case Memory(s) => (match s.Claim(key, id) case Some(s1) => Some(Memory(s1)) case None => None)
      case Sql(t) => (match t.Claim(key, id) case Some(t1) => Some(Sql(t1)) case None => None)
    }
  }

  // ---------- processes ----------

  /** Where a process is in the post-approval critical section. */
  datatype Pc =
    | Free                                // outside: any single service call
    | Claiming(id: Id)                    // inside begin_execution
    | Claimed(id: Id)                     // begin_execution returned
    | Aborting(id: Id)                    // parameters not resolved: certain failure, nothing sent
    | InFlight(id: Id)                    // dic.execute is running
    | Failing(id: Id)                     // dic.execute raised a deterministic error
    | Persisting(id: Id, verified: bool)  // dic.execute returned; recording its result
    | Marking(id: Id)                     // recording an uncertain outcome
    | Asking(id: Id)                      // reading the remote state back
    | Promoting(id: Id)                   // recording a confirmed outcome

  /** A service call between its read and its last write. */
  datatype Plan = Plan(op: Op, enabled: bool, now: Instant, base: PendingAction, claimed: bool)
  {
    function Verdict(): Decision { Decide(op, enabled, base, now) }
  }

  /** `plans` has one entry, or one per overdue action inside expire_pending. */
  datatype Proc = Proc(pc: Pc, plans: seq<Plan>)

  datatype Fault = Clean | BeforeCommit | AfterCommit

  /** What dic.execute did for an action. */
  datatype Remote = Running | Returned(verified: bool) | Ambiguous | OtherError

  /** One committed value and the service call that wrote it. */
  datatype Commit = Commit(value: PendingAction, cause: Option<Plan>)

  datatype System = System(
    repo: Repository,
    procs: map<nat, Proc>,
    history: seq<Commit>,         // every value ever committed, oldest first
    grants: seq<string>,          // idempotency keys granted, oldest first
    dispatches: seq<Id>,          // actions handed to dic.execute, oldest first
    remote: map<Id, Remote>,
    confirmed: set<Id>,           // a read-back said CONFIRMED_APPLIED
    reports: seq<(Id, Status)>)   // outcomes returned by the critical section

  datatype Step =
    | Prepare(action: PendingAction, fault: Fault, uuid: int, clock: Instant)
    | Call(p: nat, op: Op, enabled: bool, id: Id, now: Instant, readFails: bool)
    | CallExpire(p: nat, ids: seq<Id>, now: Instant)
    | ClaimKey(p: nat, fault: Fault)
    | Swap(p: nat, fault: Fault, uuid: int, clock: Instant)
    | AbortPreparation(p: nat)
    | Dispatch(p: nat)
    | RemoteAnswers(p: nat, outcome: Remote)
    | ReadBack(p: nat, applied: bool)
    | Crash(p: nat)

  function ProcOf(s: System, p: nat): Proc {
    if p in s.procs then s.procs[p] else Proc(Free, [])
  }

  function WithProc(s: System, p: nat, proc: Proc): System {
    s.(procs := s.procs[p := proc])
  }

  /** The call a process at `pc` may start, and where that leaves it. */
  function Entry(pc: Pc, op: Op, id: Id): Option<Pc> {
    match pc
    case Free => if op.Begin? then Some(Claiming(id)) else Some(Free)
    case Aborting(i) => if i == id && op.CompleteFailure? && !op.uncertain then Some(pc) else None
    case Failing(i) => if i == id && op.CompleteFailure? && !op.uncertain then Some(pc) else None
    case Persisting(i, v) => if i == id && op.CompleteSuccess? && op.verified == v then Some(pc) else None
    case Marking(i) => if i == id && op.CompleteFailure? && op.uncertain then Some(pc) else None
    case Promoting(i) => if i == id && op.Reconcile? && op.met then Some(pc) else None
    case _ => None
  }

  /** Where a process goes when its service call returned (Some) or raised (None). */
  function Resume(pc: Pc, answer: Option<PendingAction>): Pc {
    match pc
    case Claiming(id) => if answer.Some? then Claimed(id) else Free
    case Persisting(id, _) => if answer.Some? then Free else Marking(id)
    case Marking(id) => if answer.Some? then Asking(id) else Free
    case _ => Free
  }

  /** What the critical section hands back to its caller at that point. */
  function Report(pc: Pc, answer: Option<PendingAction>): seq<(Id, Status)> {
    match pc
    case Persisting(id, _) => if answer.Some? then [(id, answer.value.status)] else []
    case Promoting(id) => [(id, if answer.Some? then answer.value.status else Unknown)]
    case _ => []
  }

  function Finish(s: System, p: nat, answer: Option<PendingAction>): System {
    var pc := ProcOf(s, p).pc;
    WithProc(s, p, Proc(Resume(pc, answer), [])).(reports := s.reports + Report(pc, answer))
  }

  function ExpiryPlans(repo: Repository, ids: seq<Id>, now: Instant): seq<Plan> {
    if ids == [] then []
    else
      var rest := ExpiryPlans(repo, ids[1..], now);
      match repo.Fetch(ids[0])
      case None => rest
      case Some(a) =>
        if Decide(Expire, true, a, now).Refuse? then rest else [Plan(Expire, true, now, a, false)] + rest
  }

  /** How a call goes on once its read gave `found`, or failed. */
  function AfterRead(s: System, p: nat, pc: Pc, op: Op, enabled: bool, now: Instant, found: Option<PendingAction>): System {
    if found.None? || Decide(op, enabled, found.value, now).Refuse?
    then Finish(WithProc(s, p, Proc(pc, [])), p, None)
    else WithProc(s, p, Proc(pc, [Plan(op, enabled, now, found.value, false)]))
  }

  function ExecCall(s: System, p: nat, op: Op, enabled: bool, id: Id, now: Instant, readFails: bool): System {
    var proc := ProcOf(s, p);
    match Entry(proc.pc, op, id)
    case None => s
    case Some(pc) =>
      if proc.plans != [] then s
      else AfterRead(s, p, pc, op, enabled, now, if readFails then None else s.repo.Fetch(id))
  }

  function ExecClaim(s: System, p: nat, fault: Fault): System {
    var proc := ProcOf(s, p);
    if proc.plans == [] then s
    else
      var plan := proc.plans[0];
      if !plan.Verdict().ClaimThenWrite? || plan.claimed then s
      else if fault == BeforeCommit then Finish(s, p, None)
      else
        match s.repo.Take(plan.base.idempotencyKey, plan.base.actionId)
        case None => Finish(s, p, None)
        case Some(repo) =>
          var granted := s.(repo := repo, grants := s.grants + [plan.base.idempotencyKey]);
          if fault == AfterCommit then Finish(granted, p, None)
          else WithProc(granted, p, Proc(proc.pc, [plan.(claimed := true)] + proc.plans[1..]))
  }

  predicate ReadyToSwap(plan: Plan) {
    plan.Verdict().Write? || (plan.Verdict().ClaimThenWrite? && plan.claimed)
  }

  /** How a process goes on once the write of `plan` is committed. */
  function AfterSwap(s: System, p: nat, plan: Plan, fault: Fault): System
    requires !plan.Verdict().Refuse?
  {
    var proc := ProcOf(s, p);
    if fault == AfterCommit || (plan.Verdict().Write? && plan.Verdict().raises.Some?) then Finish(s, p, None)
    else if |proc.plans| > 1 then WithProc(s, p, Proc(proc.pc, proc.plans[1..]))
    else Finish(s, p, Some(Next(plan.Verdict())))
  }

  function ExecSwap(s: System, p: nat, fault: Fault, uuid: int, clock: Instant): System {
    var proc := ProcOf(s, p);
    if proc.plans == [] || !ReadyToSwap(proc.plans[0]) then s
    else if fault == BeforeCommit then Finish(s, p, None)
    else
      var plan := proc.plans[0];
      var next := Next(plan.Verdict());
      match s.repo.Put(next, plan.base.version, uuid, clock)
      case Raise(_) => Finish(s, p, None)
      case Ok(repo) =>
        var committed := s.(repo := repo, history := s.history + [Commit(next, Some(plan))]);
        AfterSwap(committed, p, plan, fault)
  }

  function Exec(s: System, step: Step): System {
    match step
    case Prepare(action, fault, uuid, clock) =>
      if !Prepared(action) || fault == BeforeCommit then s
      else
        (match s.repo.Add(action, uuid, clock)
         case Raise(_) => s
         case Ok(repo) => s.(repo := repo, history := s.history + [Commit(action, None)]))
    case Call(p, op, enabled, id, now, readFails) => ExecCall(s, p, op, enabled, id, now, readFails)
    case CallExpire(p, ids, now) =>
      if ProcOf(s, p) != Proc(Free, []) then s else WithProc(s, p, Proc(Free, ExpiryPlans(s.repo, ids, now)))
    case ClaimKey(p, fault) => ExecClaim(s, p, fault)
    case Swap(p, fault, uuid, clock) => ExecSwap(s, p, fault, uuid, clock)
    case AbortPreparation(p) =>
      var pc := ProcOf(s, p).pc;
      if !pc.Claimed? then s else WithProc(s, p, Proc(Aborting(pc.id), []))
    case Dispatch(p) =>
      var pc := ProcOf(s, p).pc;
      if !pc.Claimed? then s
      else WithProc(s, p, Proc(InFlight(pc.id), [])).(dispatches := s.dispatches + [pc.id],
                                                      remote := s.remote[pc.id := Running])
    case RemoteAnswers(p, outcome) =>
      var pc := ProcOf(s, p).pc;
      if !pc.InFlight? || outcome.Running? then s
      else
        var next := match outcome
                    case Returned(v) => Persisting(pc.id, v)
                    case Ambiguous => Marking(pc.id)
                    case _ => Failing(pc.id);
        WithProc(s, p, Proc(next, [])).(remote := s.remote[pc.id := outcome])
    case ReadBack(p, applied) =>
      var pc := ProcOf(s, p).pc;
      if !pc.Asking? then s
      else if applied then WithProc(s, p, Proc(Promoting(pc.id), [])).(confirmed := s.confirmed + {pc.id})
      else WithProc(s, p, Proc(Free, [])).(reports := s.reports + [(pc.id, Unknown)])
    case Crash(p) => WithProc(s, p, Proc(Free, []))
  }

  const MEMORY: Repository := Memory(MemoryStore.EMPTY)
  const DATABASE: Repository := Sql(SqlStore.EMPTY)

  function Start(repo: Repository): System {
    System(repo, map[], [], [], [], map[], {}, [])
  }

  function Run(repo: Repository, steps: seq<Step>): System {
    if steps == [] then Start(repo) else Exec(Run(repo, steps[..|steps| - 1]), steps[|steps| - 1])
  }
}
