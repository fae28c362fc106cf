/** What a poll tells about a job, traced back to the steps that made it so. */
module WorkerOutcomes {
  import opened JobTable
  import opened WorkerProtocol
  import opened WorkerTheorems
  import opened Wrappers

  /** A run from the empty worker. */
  ghost predicate IsHistory(states: seq<State>, steps: seq<Step>) {
    IsRun(states, steps) && states[0] == INITIAL
  }

  /** Step `i` registers the job. */
  ghost predicate RegistersAt(steps: seq<Step>, i: nat, id: JobId) {
    i < |steps| && steps[i].Register? && steps[i].id == id
  }

  /** Step `i` is the end of the work on an item by the runner that is busy with it. */
  ghost predicate FinishesAt(states: seq<State>, steps: seq<Step>, i: nat, it: Item)
    requires IsRun(states, steps)
  {
    && i < |steps| && steps[i].Finish?
    && steps[i].runner in states[i].runners && states[i].runners[steps[i].runner] == Busy(it)
  }

  lemma {:induction false} InvAt(states: seq<State>, steps: seq<Step>, i: nat)
    requires IsHistory(states, steps) && i < |states|
    ensures Inv(states[i])
  {
    ReachableInv(states, steps, i);
  }

  // ---------------------------------------------------------------------------------
  // Registration

  lemma ItemStays(s: State, step: Step, id: JobId)
    requires Enabled(s, step) && id in s.items
    ensures id in Apply(s, step).items && Apply(s, step).items[id] == s.items[id]
    ensures !(step.Register? && step.id == id)
  {
  }

  lemma NewItem(s: State, step: Step, id: JobId)
    requires Enabled(s, step) && id !in s.items && id in Apply(s, step).items
    ensures step.Register? && step.id == id && Apply(s, step).items[id] == Item(id, step.agent, step.session)
  {
  }

  lemma {:induction false} ItemsStay(states: seq<State>, steps: seq<Step>, i: nat, n: nat, id: JobId)
    requires IsRun(states, steps) && i <= n < |states| && id in states[i].items
    ensures id in states[n].items && states[n].items[id] == states[i].items[id]
    ensures forall k :: i <= k < n ==> !RegistersAt(steps, k, id)
    decreases n
  {
    if i < n {
      assert Enabled(states[n-1], steps[n-1]) && states[n] == Apply(states[n-1], steps[n-1]);
      ItemsStay(states, steps, i, n - 1, id);
      ItemStays(states[n-1], steps[n-1], id);
    }
  }

  /** What stays of a job row whatever is done with the job. */
  predicate SameJob(a: Job, b: Job) {
    a.agent == b.agent && a.session == b.session && a.createdAt == b.createdAt
  }

  lemma RowStays(s: State, step: Step, id: JobId)
    requires Enabled(s, step) && id in Apply(s, step).jobs && !(step.Register? && step.id == id)
    ensures id in s.jobs && SameJob(s.jobs[id], Apply(s, step).jobs[id])
  {
  }

  lemma {:induction false} RowFromRegister(states: seq<State>, steps: seq<Step>, i: nat, n: nat, id: JobId)
    requires IsRun(states, steps) && i < n < |states| && RegistersAt(steps, i, id) && id in states[n].jobs
    ensures SameJob(states[n].jobs[id], NewJob(steps[i].agent, steps[i].session, steps[i].now))
    decreases n
  {
    assert Enabled(states[i], steps[i]) && states[i+1] == Apply(states[i], steps[i]);
    if i < n - 1 {
      ItemsStay(states, steps, i + 1, n - 1, id);
      ItemStays(states[n-1], steps[n-1], id);
      RowStays(states[n-1], steps[n-1], id);
      RowFromRegister(states, steps, i, n - 1, id);
    }
  }

  lemma {:induction false} RegisteredAt(states: seq<State>, steps: seq<Step>, n: nat, id: JobId) returns (i: nat)
    requires IsHistory(states, steps) && n < |states| && id in states[n].items
    ensures i < n && RegistersAt(steps, i, id) && states[n].items[id] == Item(id, steps[i].agent, steps[i].session)
    decreases n
  {
    if id in states[n-1].items {
      i := RegisteredAt(states, steps, n - 1, id);
      ItemStays(states[n-1], steps[n-1], id);
    } else {
      NewItem(states[n-1], steps[n-1], id);
      i := n - 1;
    }
  }

  /** A job in the table was registered once, and its agent, session and creation time, and
    * those of the work queued for it, are the ones it was registered with. */
  lemma {:induction false} JobIsAsRegistered(states: seq<State>, steps: seq<Step>, n: nat, id: JobId) returns (i: nat)
    requires IsHistory(states, steps) && n < |states| && id in states[n].jobs
    ensures i < n && RegistersAt(steps, i, id) && forall k: nat :: k < n && RegistersAt(steps, k, id) ==> k == i
    ensures states[n].jobs[id].agent == steps[i].agent && states[n].jobs[id].session == steps[i].session
    ensures states[n].jobs[id].createdAt == steps[i].now
    ensures id in states[n].items && states[n].items[id] == Item(id, steps[i].agent, steps[i].session)
  {
    InvAt(states, steps, n);
    assert JobOk(states[n], id);
    i := RegisteredAt(states, steps, n, id);
    RowFromRegister(states, steps, i, n, id);
    forall k: nat | k < n && RegistersAt(steps, k, id) ensures k == i {
      OneRegistration(states, steps, i, k, n, id);
    }
  }

  lemma RegisterPuts(states: seq<State>, steps: seq<Step>, i: nat, id: JobId)
    requires IsRun(states, steps) && RegistersAt(steps, i, id)
    ensures id in states[i+1].items
  {
    assert Enabled(states[i], steps[i]) && states[i+1] == Apply(states[i], steps[i]);
  }

  lemma {:induction false} NotTwice(states: seq<State>, steps: seq<Step>, i: nat, k: nat, n: nat, id: JobId)
    requires IsRun(states, steps) && i < k < n < |states| && RegistersAt(steps, i, id)
    ensures !RegistersAt(steps, k, id)
  {
    RegisterPuts(states, steps, i, id);
    ItemsStay(states, steps, i + 1, n, id);
  }

  lemma {:induction false} OneRegistration(states: seq<State>, steps: seq<Step>, i: nat, k: nat, n: nat, id: JobId)
    requires IsRun(states, steps) && i < n < |states| && k < n && RegistersAt(steps, i, id) && RegistersAt(steps, k, id)
    ensures k == i
  {
    if i < k {
      NotTwice(states, steps, i, k, n, id);
    } else if k < i {
      NotTwice(states, steps, k, i, n, id);
    }
  }

  // ---------------------------------------------------------------------------------
  // The end of a job

  /** The row says what the finish reported. */
  predicate Reports(j: Job, ok: bool, error: string, now: nat) {
    && j.status == (if ok then Done else Failed)
    && j.error == (if ok then "" else error)
    && j.doneAt == Some(now)
  }

  /** A row not yet finished shows no error and no completion time. */
  predicate Open(j: Job) {
    (j.status == Queued || j.status == Running) && j.error == "" && j.doneAt == None
  }

  /** What one step does to a row: nothing, or it opens it, or it ends its job. */
  ghost predicate RowAfter(s: State, step: Step, id: JobId)
    requires Enabled(s, step) && id in Apply(s, step).jobs
  {
    var j := Apply(s, step).jobs[id];
    || (id in s.jobs && s.jobs[id] == j)
    || Open(j)
    || (step.Finish? && s.runners[step.runner].item.job == id && Reports(j, step.ok, step.error, step.now))
  }

  lemma RowAfterBegin(s: State, step: Step, id: JobId)
    requires step.Begin? && Enabled(s, step) && id in Apply(s, step).jobs
    ensures RowAfter(s, step, id)
  {
  }

  lemma RowAfterFinish(s: State, step: Step, id: JobId)
    requires step.Finish? && Enabled(s, step) && id in Apply(s, step).jobs
    ensures RowAfter(s, step, id)
  {
  }

  lemma RowAfterRegister(s: State, step: Step, id: JobId)
    requires step.Register? && Enabled(s, step) && id in Apply(s, step).jobs
    ensures RowAfter(s, step, id)
  {
  }

  lemma RowChanges(s: State, step: Step, id: JobId)
    requires Enabled(s, step) && id in Apply(s, step).jobs
    ensures RowAfter(s, step, id)
  {
    match step
    case Register(_, _, _, _, _) => RowAfterRegister(s, step, id);
    case Begin(_, _) => RowAfterBegin(s, step, id);
    case Finish(_, _, _, _) => RowAfterFinish(s, step, id);
    case _ =>
  }

  lemma FinishedItem(s: State, step: Step)
    requires Inv(s) && Enabled(s, step) && step.Finish?
    ensures var it := s.runners[step.runner].item;
      it.job in s.items && s.items[it.job] == it && it.agent == step.runner
  {
    assert AgentOk(s, step.runner);
    TakenDelivered(s, step.runner);
  }

  /** The row shows what some finish of its job reported. */
  ghost predicate Reported(states: seq<State>, steps: seq<Step>, n: nat, it: Item, j: Job)
    requires IsRun(states, steps)
  {
    exists i: nat :: i < n && FinishesAt(states, steps, i, it) && Reports(j, steps[i].ok, steps[i].error, steps[i].now)
  }

  lemma ReportedLater(states: seq<State>, steps: seq<Step>, n: nat, it: Item, j: Job)
    requires IsRun(states, steps) && Reported(states, steps, n, it, j)
    ensures Reported(states, steps, n + 1, it, j)
  {
    var i: nat :| i < n && FinishesAt(states, steps, i, it) && Reports(j, steps[i].ok, steps[i].error, steps[i].now);
    assert i < n + 1;
  }

  lemma ReportedNow(states: seq<State>, steps: seq<Step>, n: nat, id: JobId)
    requires IsHistory(states, steps) && 0 < n < |states| && Inv(states[n-1]) && steps[n-1].Finish?
    requires states[n-1].runners[steps[n-1].runner].item.job == id && id in states[n].jobs
    requires Reports(states[n].jobs[id], steps[n-1].ok, steps[n-1].error, steps[n-1].now)
    ensures id in states[n].items && Reported(states, steps, n, states[n].items[id], states[n].jobs[id])
  {
    FinishedItem(states[n-1], steps[n-1]);
    ItemStays(states[n-1], steps[n-1], id);
    assert FinishesAt(states, steps, n - 1, states[n].items[id]);
  }

  /** The row is open, or shows the finish of its job. */
  ghost predicate OpenOrReported(states: seq<State>, steps: seq<Step>, n: nat, id: JobId)
    requires IsRun(states, steps) && n < |states| && id in states[n].jobs && id in states[n].items
  {
    Open(states[n].jobs[id]) || Reported(states, steps, n, states[n].items[id], states[n].jobs[id])
  }

  lemma RowKept(states: seq<State>, steps: seq<Step>, n: nat, id: JobId)
    requires IsRun(states, steps) && 0 < n < |states| && id in states[n].jobs
    requires id in states[n-1].jobs && states[n-1].jobs[id] == states[n].jobs[id]
    requires id in states[n-1].items && OpenOrReported(states, steps, n - 1, id)
    ensures id in states[n].items && OpenOrReported(states, steps, n, id)
  {
    ItemStays(states[n-1], steps[n-1], id);
    if !Open(states[n].jobs[id]) {
      ReportedLater(states, steps, n - 1, states[n-1].items[id], states[n].jobs[id]);
    }
  }

  lemma RowHasItem(states: seq<State>, steps: seq<Step>, n: nat, id: JobId)
    requires IsHistory(states, steps) && n < |states| && id in states[n].jobs
    ensures id in states[n].items
  {
    InvAt(states, steps, n);
  }

  lemma {:induction false} RowIsOpenOrReported(states: seq<State>, steps: seq<Step>, n: nat, id: JobId)
    requires IsHistory(states, steps) && n < |states| && id in states[n].jobs
    ensures id in states[n].items && OpenOrReported(states, steps, n, id)
    decreases n
  {
    RowHasItem(states, steps, n, id);
    if !Open(states[n].jobs[id]) {
      RowChanges(states[n-1], steps[n-1], id);
      if id in states[n-1].jobs && states[n-1].jobs[id] == states[n].jobs[id] {
        RowIsOpenOrReported(states, steps, n - 1, id);
        RowKept(states, steps, n, id);
      } else {
        InvAt(states, steps, n - 1);
        ReportedNow(states, steps, n, id);
      }
    }
  }

  /** The work on an item has ended at runner `a`. */
  ghost predicate Over(s: State, a: Agent, it: Item) {
    && a in s.queues && a in s.begun && it in s.begun[a]
    && a in s.runners && s.runners[a] != Busy(it)
  }

  lemma BeginsAnother(s: State, step: Step, a: Agent, it: Item)
    requires Inv(s) && Enabled(s, step) && step.Begin? && Over(s, a, it)
    ensures Over(Apply(s, step), a, it)
  {
    assert AgentOk(s, a);
    if s.runners[a].Took? { TakenDelivered(s, a); }
  }

  lemma BeginsNone(s: State, step: Step, a: Agent, it: Item)
    requires Enabled(s, step) && !step.Begin? && Over(s, a, it)
    ensures Over(Apply(s, step), a, it)
  {
  }

  /** Once the work on an item has ended its runner never takes it up again. */
  lemma NotAgain(s: State, step: Step, a: Agent, it: Item)
    requires Inv(s) && Enabled(s, step) && Over(s, a, it)
    ensures Over(Apply(s, step), a, it)
  {
    if step.Begin? { BeginsAnother(s, step, a, it); } else { BeginsNone(s, step, a, it); }
  }

  lemma {:induction false} NeverAgain(states: seq<State>, steps: seq<Step>, i: nat, n: nat, a: Agent, it: Item)
    requires IsHistory(states, steps) && i <= n < |states|
    requires Over(states[i], a, it)
    ensures Over(states[n], a, it)
    decreases n
  {
    if i < n {
      NeverAgain(states, steps, i, n - 1, a, it);
      InvAt(states, steps, n - 1);
      NotAgain(states[n-1], steps[n-1], a, it);
    }
  }

  lemma AfterFinish(s: State, step: Step, it: Item)
    requires Inv(s) && Enabled(s, step) && step.Finish? && s.runners[step.runner] == Busy(it)
    ensures step.runner == it.agent && Over(Apply(s, step), it.agent, it)
  {
    assert AgentOk(s, step.runner);
    TakenDelivered(s, step.runner);
  }

  lemma {:induction false} OneFinish(states: seq<State>, steps: seq<Step>, i: nat, k: nat, it: Item)
    requires IsHistory(states, steps) && i < k && FinishesAt(states, steps, i, it)
    ensures !FinishesAt(states, steps, k, it)
  {
    if k < |steps| {
      InvAt(states, steps, i);
      AfterFinish(states[i], steps[i], it);
      NeverAgain(states, steps, i + 1, k, it.agent, it);
      InvAt(states, steps, k);
      if steps[k].Finish? && states[k].runners[steps[k].runner].Busy? { FinishedItem(states[k], steps[k]); }
    }
  }

  /** A job shown as finished was finished by exactly one step of its runner, and the status, the
    * error and the completion time shown are those of that step. */
  lemma {:induction false} FinishedAsReported(states: seq<State>, steps: seq<Step>, n: nat, id: JobId) returns (i: nat)
    requires IsHistory(states, steps) && n < |states| && id in states[n].jobs && states[n].jobs[id].status.Terminal()
    ensures id in states[n].items && i < n && FinishesAt(states, steps, i, states[n].items[id])
    ensures forall k: nat :: FinishesAt(states, steps, k, states[n].items[id]) ==> k == i
    ensures states[n].jobs[id].status == Done <==> steps[i].ok
    ensures states[n].jobs[id].status == Failed <==> !steps[i].ok
    ensures states[n].jobs[id].error == if steps[i].ok then "" else steps[i].error
    ensures states[n].jobs[id].doneAt == Some(steps[i].now)
  {
    RowIsOpenOrReported(states, steps, n, id);
    var it := states[n].items[id];
    assert Reported(states, steps, n, it, states[n].jobs[id]);
    i :| i < n && FinishesAt(states, steps, i, it)
      && Reports(states[n].jobs[id], steps[i].ok, steps[i].error, steps[i].now);
    forall k: nat | FinishesAt(states, steps, k, it) ensures k == i {
      if i < k { OneFinish(states, steps, i, k, it); }
      if k < i { OneFinish(states, steps, k, i, it); }
    }
  }

  /** A finish is shown from then on, for as long as the job is in the table. */
  lemma {:induction false} ReportStays(states: seq<State>, steps: seq<Step>, i: nat, n: nat, it: Item)
    requires IsHistory(states, steps) && i < n < |states|
    requires FinishesAt(states, steps, i, it) && it.job in states[n].jobs
    ensures Reports(states[n].jobs[it.job], steps[i].ok, steps[i].error, steps[i].now)
  {
    InvAt(states, steps, i);
    FinishedItem(states[i], steps[i]);
    ItemsStay(states, steps, i, n, it.job);
    AfterFinish(states[i], steps[i], it);
    NeverAgain(states, steps, i + 1, n, it.agent, it);
    InvAt(states, steps, n);
    StatusMatchesPlace(states[n], it.job);
    assert At(states[n], it.job, Finished);
    var k := FinishedAsReported(states, steps, n, it.job);
  }
}
