/** The protocol and the browser adapter together: what the database says about a
    request and what the remote system received for it. */
module WriteEndToEnd {
  import opened ApprovalModel
  import opened ApprovalProtocol
  import opened ApprovalSafety
  import opened Options
  import Adapter = WriteReconciliation
  import ApprovalOutcome
  import SqlSimulation

  /** One call of the adapter; `open` when it is neither closed nor kept from writing. */
  datatype AdapterCall = AdapterCall(open: bool, action: Adapter.Action, env: Adapter.Env)

  /** The adapter call behind the k-th dispatch, and what the read-back of step n met. */
  datatype World = World(call: nat -> AdapterCall, later: nat -> Adapter.Env)

  function Answer(c: AdapterCall): Remote {
    if c.open then Adapter.Heard(Adapter.Execute(c.action, c.env)) else OtherError
  }

  /** The remote system received the write of this call. */
  predicate Delivers(c: AdapterCall) {
    c.open && Adapter.Sent(c.action, c.env)
  }

  /** The write was delivered and its answer broke outside the caught classes. */
  predicate BrokeAfterwards(c: AdapterCall) {
    Delivers(c) && c.env.write.raised == Some(Adapter.OtherException)
  }

  /** The read-back of step `n`, without a baseline, confirms the k-th dispatch. */
  predicate ConfirmedAt(w: World, k: nat, n: nat) {
    Adapter.ReadBack(w.call(k).action, w.later(n), None) == Some(Adapter.CONFIRMED_APPLIED)
  }

  /** What dic.execute and dic.reconcile answer is what the adapter answers. */
  ghost predicate DrivenStep(s: System, step: Step, n: nat, w: World) {
    match step
    case RemoteAnswers(p, outcome) =>
      ProcOf(s, p).pc.InFlight? && !outcome.Running? ==>
        forall k :: 0 <= k < |s.dispatches| && s.dispatches[k] == ProcOf(s, p).pc.id ==> outcome == Answer(w.call(k))
    case ReadBack(p, applied) =>
      ProcOf(s, p).pc.Asking? && applied ==>
        forall k :: 0 <= k < |s.dispatches| && s.dispatches[k] == ProcOf(s, p).pc.id ==> ConfirmedAt(w, k, n)
    case _ => true
  }

  ghost predicate Driven(repo: Repository, steps: seq<Step>, w: World) {
    && (forall n :: 0 <= n < |steps| ==> DrivenStep(Run(repo, steps[..n]), steps[n], n, w))
    && (forall k: nat :: Adapter.Honest(w.call(k).env.write))
  }

  // ---------- the answers that a run remembers ----------

  /** `remote` and `confirmed` hold what the adapter said. */
  ghost predicate Remembers(s: System, w: World) {
    forall k :: 0 <= k < |s.dispatches| ==>
      && s.dispatches[k] in s.remote
      && (s.remote[s.dispatches[k]].Running? || s.remote[s.dispatches[k]] == Answer(w.call(k)))
      && (s.dispatches[k] in s.confirmed ==> exists n: nat :: ConfirmedAt(w, k, n))
  }

  lemma OthersRememberNothing(s: System, step: Step)
    requires !step.Dispatch? && !step.RemoteAnswers? && !step.ReadBack?
    ensures var s1 := Exec(s, step);
            s1.dispatches == s.dispatches && s1.remote == s.remote && s1.confirmed == s.confirmed
  {
  }

  lemma DispatchRemembers(s: System, p: nat, w: World)
    requires Remembers(s, w) && Distinct(Exec(s, Dispatch(p)).dispatches)
    requires forall id <- s.confirmed :: id in s.dispatches
    ensures Remembers(Exec(s, Dispatch(p)), w)
    ensures forall id <- Exec(s, Dispatch(p)).confirmed :: id in Exec(s, Dispatch(p)).dispatches
  {
    var s1 := Exec(s, Dispatch(p));
    if s1.dispatches != s.dispatches {
      var id := ProcOf(s, p).pc.id;
      assert s1.dispatches == s.dispatches + [id];
      assert s1.dispatches[|s.dispatches|] == id;
      forall k | 0 <= k < |s.dispatches|
        ensures s.dispatches[k] != id
      {
        assert s1.dispatches[k] == s.dispatches[k];
      }
    }
  }

  lemma AnswerRemembers(s: System, step: Step, n: nat, w: World)
    requires Remembers(s, w) && DrivenStep(s, step, n, w) && step.RemoteAnswers?
    ensures Remembers(Exec(s, step), w)
  {
  }

  lemma ReadBackRemembers(s: System, step: Step, n: nat, w: World)
    requires Remembers(s, w) && DrivenStep(s, step, n, w) && step.ReadBack?
    ensures Remembers(Exec(s, step), w)
  {
    var s1 := Exec(s, step);
    forall k | 0 <= k < |s1.dispatches| && s1.dispatches[k] in s1.confirmed
      ensures exists m: nat :: ConfirmedAt(w, k, m)
    {
      if s1.dispatches[k] !in s.confirmed {
        assert ConfirmedAt(w, k, n);
      }
    }
  }

  lemma {:induction false} RunsRemember(steps: seq<Step>, w: World)
    requires ApprovalOutcome.Disciplined(MEMORY, steps) && Driven(MEMORY, steps, w)
    ensures Remembers(Run(MEMORY, steps), w)
  {
    if steps != [] {
      var n := |steps| - 1;
      var s, step := Run(MEMORY, steps[..n]), steps[n];
      PrefixDriven(steps, w);
      RunsRemember(steps[..n], w);
      assert DrivenStep(s, step, n, w);
      ConfirmedWereDispatched(steps[..n]);
      AtMostOnceExecution(steps);
      if step.Dispatch? {
        DispatchRemembers(s, step.p, w);
      } else if step.RemoteAnswers? {
        AnswerRemembers(s, step, n, w);
      } else if step.ReadBack? {
        ReadBackRemembers(s, step, n, w);
      } else {
        OthersRememberNothing(s, step);
      }
    }
  }

  lemma PrefixDriven(steps: seq<Step>, w: World)
    requires steps != [] && ApprovalOutcome.Disciplined(MEMORY, steps) && Driven(MEMORY, steps, w)
    ensures ApprovalOutcome.Disciplined(MEMORY, steps[..|steps| - 1]) && Driven(MEMORY, steps[..|steps| - 1], w)
  {
    var before := steps[..|steps| - 1];
    forall n | 0 <= n < |before|
      ensures DrivenStep(Run(MEMORY, before[..n]), before[n], n, w)
      ensures ApprovalOutcome.DisciplinedStep(Run(MEMORY, before[..n]), before[n])
    {
      assert before[..n] == steps[..n];
      assert DrivenStep(Run(MEMORY, steps[..n]), steps[n], n, w);
      assert ApprovalOutcome.DisciplinedStep(Run(MEMORY, steps[..n]), steps[n]);
    }
  }

  /** Only what was dispatched is asked about. */
  lemma {:induction false} ConfirmedWereDispatched(steps: seq<Step>)
    requires ApprovalOutcome.Disciplined(MEMORY, steps)
    ensures forall id <- Run(MEMORY, steps).confirmed :: id in Run(MEMORY, steps).dispatches
  {
    if steps != [] {
      var n := |steps| - 1;
      var s, step := Run(MEMORY, steps[..n]), steps[n];
      PrefixDisciplined(steps);
      ConfirmedWereDispatched(steps[..n]);
      ApprovalOutcome.RunsAreFaithful(steps[..n]);
      StepConfirms(s, step);
    }
  }

  lemma PrefixDisciplined(steps: seq<Step>)
    requires steps != [] && ApprovalOutcome.Disciplined(MEMORY, steps)
    ensures ApprovalOutcome.Disciplined(MEMORY, steps[..|steps| - 1])
  {
    var before := steps[..|steps| - 1];
    forall n | 0 <= n < |before|
      ensures ApprovalOutcome.DisciplinedStep(Run(MEMORY, before[..n]), before[n])
    {
      assert before[..n] == steps[..n];
      assert ApprovalOutcome.DisciplinedStep(Run(MEMORY, steps[..n]), steps[n]);
    }
  }

  lemma StepConfirms(s: System, step: Step)
    requires ApprovalOutcome.Faithful(s) && forall id <- s.confirmed :: id in s.dispatches
    ensures forall id <- Exec(s, step).confirmed :: id in Exec(s, step).dispatches
  {
    if step.ReadBack? {
      if step.p in s.procs && s.procs[step.p].pc.Asking? {
        assert ApprovalOutcome.PcHonest(s.procs[step.p].pc, s.repo.store, s.remote, s.confirmed);
      }
    } else if !step.Dispatch? && !step.RemoteAnswers? {
      OthersRememberNothing(s, step);
    }
  }

  // ---------- at most one remote write ----------

  /** How often the remote system received a write of this request. */
  function RemoteWrites(dispatches: seq<Id>, w: World, id: Id): nat {
    if dispatches == [] then 0
    else
      var k := |dispatches| - 1;
      RemoteWrites(dispatches[..k], w, id) + if dispatches[k] == id && Delivers(w.call(k)) then 1 else 0
  }

  lemma {:induction false} NoDispatchNoWrite(dispatches: seq<Id>, w: World, id: Id)
    requires id !in dispatches
    ensures RemoteWrites(dispatches, w, id) == 0
  {
    if dispatches != [] {
      NoDispatchNoWrite(dispatches[..|dispatches| - 1], w, id);
    }
  }

  lemma {:induction false} OneDispatchOneWrite(dispatches: seq<Id>, w: World, k: nat)
    requires Distinct(dispatches) && k < |dispatches|
    ensures RemoteWrites(dispatches, w, dispatches[k]) == if Delivers(w.call(k)) then 1 else 0
  {
    var n := |dispatches| - 1;
    if k < n {
      OneDispatchOneWrite(dispatches[..n], w, k);
    } else {
      NoDispatchNoWrite(dispatches[..n], w, dispatches[n]);
    }
  }

  /** Over every run on the database, whatever the adapter meets, the remote system
      receives at most one write for each request, and none without a dispatch. */
  lemma AtMostOneRemoteWrite(steps: seq<Step>, w: World, id: Id)
    ensures var d := Run(DATABASE, steps).dispatches;
            && RemoteWrites(d, w, id) <= 1
            && (RemoteWrites(d, w, id) == 1 <==> exists k :: 0 <= k < |d| && d[k] == id && Delivers(w.call(k)))
  {
    SqlSimulation.DatabaseExecutesAtMostOnce(steps);
    var d := Run(DATABASE, steps).dispatches;
    if id in d {
      var k :| 0 <= k < |d| && d[k] == id;
      OneDispatchOneWrite(d, w, k);
    } else {
      NoDispatchNoWrite(d, w, id);
    }
  }

  // ---------- what the status column tells ----------

  /** The promised value was on a page read after the k-th dispatch, by the adapter's own
      read-back or, for a balance correction or role change, by a later one. */
  ghost predicate Shown(w: World, k: nat) {
    var c := w.call(k);
    || Adapter.Postcondition(c.action, c.env)
    || (Adapter.Unanchored(c.action.functionId) && exists n: nat :: Adapter.Postcondition(c.action, w.later(n)))
  }

  /** What the stored status of the k-th dispatched request tells about its write. */
  ghost predicate Tells(status: Status, w: World, k: nat) {
    && (status == Executing || status == Succeeded || status == Unknown || status == Failed)
    && (status == Succeeded ==> Shown(w, k))
    && (status == Failed ==> !Delivers(w.call(k)) || BrokeAfterwards(w.call(k)))
  }

  lemma VerifiedIsShown(c: AdapterCall)
    requires Answer(c) == Returned(true)
    ensures Adapter.Postcondition(c.action, c.env)
  {
    Adapter.NoFalseSuccess(c.action, c.env);
  }

  lemma FailedIsNotDelivered(c: AdapterCall)
    requires Answer(c) == OtherError && Adapter.Honest(c.env.write)
    ensures !Delivers(c) || BrokeAfterwards(c)
  {
  }

  lemma StatusTells(s: System, w: World, k: nat)
    requires ApprovalOutcome.Faithful(s) && Remembers(s, w) && k < |s.dispatches|
    requires Adapter.Honest(w.call(k).env.write)
    ensures s.dispatches[k] in s.repo.store.actions
    ensures Tells(s.repo.store.actions[s.dispatches[k]].status, w, k)
  {
    var id := s.dispatches[k];
    assert id in s.remote;
    var status := s.repo.store.actions[id].status;
    assert ApprovalOutcome.StatusHonest(status, id, s.remote, s.confirmed);
    if status == Succeeded {
      if s.remote[id] == Returned(true) {
        VerifiedIsShown(w.call(k));
      } else {
        var n: nat :| ConfirmedAt(w, k, n);
        Adapter.ReadBackConfirmsOnlyUnanchored(w.call(k).action, w.later(n));
      }
    } else if status == Failed {
      FailedIsNotDelivered(w.call(k));
    }
  }

  lemma DrivenAlike(steps: seq<Step>, w: World)
    requires Driven(DATABASE, steps, w)
    ensures Driven(MEMORY, steps, w)
  {
    forall n | 0 <= n < |steps|
      ensures DrivenStep(Run(MEMORY, steps[..n]), steps[n], n, w)
    {
      assert DrivenStep(Run(DATABASE, steps[..n]), steps[n], n, w);
      SqlSimulation.DatabaseSimulates(steps[..n]);
      if steps[n].RemoteAnswers? || steps[n].ReadBack? {
        SqlSimulation.ProcSim(Run(DATABASE, steps[..n]), Run(MEMORY, steps[..n]), steps[n].p);
      }
    }
  }

  /** Over every run on the database with the adapter behind it: a dispatched request is
      EXECUTING, SUCCEEDED, UNKNOWN or FAILED; SUCCEEDED means that the promised value
      was seen on the page after the dispatch; FAILED means that nothing was delivered,
      or that the answer to a delivered write broke outside the caught classes. */
  lemma StatusTellsTheWrite(steps: seq<Step>, w: World)
    requires ApprovalOutcome.Disciplined(DATABASE, steps) && Driven(DATABASE, steps, w)
    ensures Run(DATABASE, steps).repo.Sql?
    ensures var s := Run(DATABASE, steps);
            forall k :: 0 <= k < |s.dispatches| ==>
              && s.dispatches[k] in s.repo.tables.actions
              && Tells(s.repo.tables.actions[s.dispatches[k]].status, w, k)
  {
    SqlSimulation.DisciplineAlike(steps);
    DrivenAlike(steps, w);
    SqlSimulation.DatabaseSimulates(steps);
    ApprovalOutcome.RunsAreFaithful(steps);
    RunsRemember(steps, w);
    var s, m := Run(DATABASE, steps), Run(MEMORY, steps);
    SqlSimulation.StatusesAlike(s.repo.tables.actions, m.repo.store.actions);
    forall k | 0 <= k < |s.dispatches|
      ensures s.dispatches[k] in s.repo.tables.actions
              && Tells(s.repo.tables.actions[s.dispatches[k]].status, w, k)
    {
      StatusTells(m, w, k);
    }
  }

  /** So a write that was delivered is never recorded as if it had not been, unless its
      answer broke outside the caught classes. */
  lemma DeliveredIsNeverForgotten(steps: seq<Step>, w: World, id: Id)
    requires ApprovalOutcome.Disciplined(DATABASE, steps) && Driven(DATABASE, steps, w)
    requires RemoteWrites(Run(DATABASE, steps).dispatches, w, id) > 0
    ensures Run(DATABASE, steps).repo.Sql? && id in Run(DATABASE, steps).repo.tables.actions
    ensures var s := Run(DATABASE, steps);
            var status := s.repo.tables.actions[id].status;
            || status == Executing || status == Succeeded || status == Unknown
            || (status == Failed && exists k :: 0 <= k < |s.dispatches| && s.dispatches[k] == id && BrokeAfterwards(w.call(k)))
  {
    AtMostOneRemoteWrite(steps, w, id);
    StatusTellsTheWrite(steps, w);
    var s := Run(DATABASE, steps);
    var k :| 0 <= k < |s.dispatches| && s.dispatches[k] == id && Delivers(w.call(k));
    assert Tells(s.repo.tables.actions[s.dispatches[k]].status, w, k);
  }
}
