/** What the worker protocol guarantees on every run. */
module WorkerTheorems {
  import opened JobTable
  import opened WorkerProtocol

  /** A run: states joined by enabled steps, in any interleaving. */
  ghost predicate IsRun(states: seq<State>, steps: seq<Step>) {
    && |states| == |steps| + 1
    && forall i {:trigger steps[i]} :: 0 <= i < |steps| ==>
      Enabled(states[i], steps[i]) && states[i+1] == Apply(states[i], steps[i])
  }

  lemma {:induction false} RunKeepsInv(states: seq<State>, steps: seq<Step>, i: nat)
    requires IsRun(states, steps) && Inv(states[0]) && i < |states|
    ensures Inv(states[i])
  {
    if i > 0 {
      RunKeepsInv(states, steps, i - 1);
      StepKeepsInv(states[i-1], steps[i-1]);
    }
  }

  /** Every state reached from the empty worker is in order. */
  lemma ReachableInv(states: seq<State>, steps: seq<Step>, i: nat)
    requires IsRun(states, steps) && states[0] == INITIAL && i < |states|
    ensures Inv(states[i])
  {
    InitiallyInv();
    RunKeepsInv(states, steps, i);
  }

  // ---------------------------------------------------------------------------------
  // Places

  datatype Place = WithCaller | InQueue | WithRunner | Finished | Lost

  /** Whether a registered job is in the given place, read off the goroutines and channels. */
  ghost predicate At(s: State, id: JobId, p: Place)
    requires id in s.callers && id in s.items
  {
    var it := s.items[id];
    match p
    case WithCaller => s.callers[id] == Registered || s.callers[id] == Sending
    case InQueue => it.agent in s.queues && it in s.queues[it.agent]
    case WithRunner => it.agent in s.runners && (s.runners[it.agent] == Took(it) || s.runners[it.agent] == Busy(it))
    case Finished => it.agent in s.begun && it in s.begun[it.agent] && !BusyWith(s, it)
    case Lost => s.callers[id] == Dropped
  }

  /** Nothing delivered to an agent has a caller still on its way. */
  lemma DeliveredOnly(s: State, id: JobId)
    requires Inv(s) && id in s.callers && s.callers[id] != Returned
    ensures !At(s, id, InQueue) && !At(s, id, WithRunner) && !At(s, id, Finished)
  {
    var it := s.items[id];
    assert JobOk(s, id);
    if it.agent in s.queues {
      assert AgentOk(s, it.agent);
      var sent := s.sent[it.agent];
      forall k | 0 <= k < |sent| ensures sent[k] != it { assert Delivered(s, it.agent, sent[k]); }
      assert it !in sent;
      assert forall x :: x in s.begun[it.agent] ==> x in sent;
      assert forall x :: x in s.queues[it.agent] ==> x in sent;
      if s.runners[it.agent].Took? || s.runners[it.agent].Busy? { TakenDelivered(s, it.agent); }
    }
  }

  lemma PartsDisjoint(x: seq<Item>, y: seq<Item>, z: seq<Item>)
    requires Distinct(x + y + z)
    ensures forall it :: it in x ==> it !in z
  {
    var all := x + y + z;
    forall i, j | 0 <= i < |x| && 0 <= j < |z| ensures x[i] != z[j] {
      assert all[i] == x[i] && all[|x| + |y| + j] == z[j];
    }
  }

  /** A delivered job is waiting in the queue, with the runner, or finished, and only one. */
  lemma DeliveredOnce(s: State, id: JobId)
    requires Inv(s) && id in s.callers && s.callers[id] == Returned
    ensures At(s, id, InQueue) || At(s, id, WithRunner) || At(s, id, Finished)
    ensures !(At(s, id, InQueue) && At(s, id, WithRunner))
    ensures !(At(s, id, InQueue) && At(s, id, Finished))
    ensures !(At(s, id, WithRunner) && At(s, id, Finished))
  {
    var it := s.items[id];
    var a := it.agent;
    assert JobOk(s, id);
    assert AgentOk(s, a);
    var begun, held, queue := s.begun[a], Held(s.runners[a]), s.queues[a];
    assert it in begun + held + queue;
    if s.runners[a].Took? || s.runners[a].Busy? { TakenDelivered(s, a); }
    PartsDisjoint(begun, held, queue);
  }

  ghost function PlaceOf(s: State, id: JobId): Place
    requires id in s.callers && id in s.items
  {
    if s.callers[id] == Dropped then Lost
    else if s.callers[id] != Returned then WithCaller
    else if At(s, id, InQueue) then InQueue
    else if At(s, id, WithRunner) then WithRunner
    else Finished
  }

  lemma PlaceWhenDelivered(s: State, id: JobId, p: Place)
    requires Inv(s) && id in s.callers && s.callers[id] == Returned
    ensures At(s, id, p) <==> p == PlaceOf(s, id)
  {
    DeliveredOnce(s, id);
  }

  lemma PlaceBeforeDelivery(s: State, id: JobId, p: Place)
    requires Inv(s) && id in s.callers && s.callers[id] != Returned
    ensures At(s, id, p) <==> p == PlaceOf(s, id)
  {
    DeliveredOnly(s, id);
  }

  /** Every registered job is in exactly one place. */
  lemma ExactlyOnePlace(s: State, id: JobId, p: Place)
    requires Inv(s) && id in s.callers
    ensures At(s, id, p) <==> p == PlaceOf(s, id)
  {
    if s.callers[id] == Returned { PlaceWhenDelivered(s, id, p); } else { PlaceBeforeDelivery(s, id, p); }
  }

  /** What the place of a job says about its row in the table. */
  ghost predicate RowFits(s: State, id: JobId)
    requires id in s.callers && id in s.items
  {
    if id !in s.jobs then At(s, id, Finished)
    else
      && (s.jobs[id].status.Terminal() <==> At(s, id, Finished))
      && (s.jobs[id].doneAt.Some? <==> At(s, id, Finished))
      && (s.jobs[id].status == Running <==> BusyWith(s, s.items[id]))
  }

  lemma RowWhenDelivered(s: State, id: JobId)
    requires Inv(s) && id in s.callers && s.callers[id] == Returned
    ensures RowFits(s, id)
  {
    assert JobOk(s, id);
    DeliveredOnce(s, id);
  }

  lemma RowBeforeDelivery(s: State, id: JobId)
    requires Inv(s) && id in s.callers && s.callers[id] != Returned
    ensures RowFits(s, id) && (s.callers[id] == Dropped ==> s.closed)
  {
    assert JobOk(s, id);
    DeliveredOnly(s, id);
  }

  /** The status a client polls tells where the job is, and a completion time is shown
    * exactly on finished jobs.  Only finished jobs ever leave the table. */
  lemma StatusMatchesPlace(s: State, id: JobId)
    requires Inv(s) && id in s.callers
    ensures id !in s.jobs ==> At(s, id, Finished)
    ensures id in s.jobs ==> (s.jobs[id].status.Terminal() <==> At(s, id, Finished))
    ensures id in s.jobs ==> (s.jobs[id].doneAt.Some? <==> At(s, id, Finished))
    ensures id in s.jobs ==> (s.jobs[id].status == Running <==> BusyWith(s, s.items[id]))
    ensures At(s, id, Lost) ==> s.closed
  {
    if s.callers[id] == Returned { RowWhenDelivered(s, id); } else { RowBeforeDelivery(s, id); }
  }

  /** At most one job of an agent is running. */
  lemma OneRunningPerAgent(s: State, x: JobId, y: JobId)
    requires Inv(s) && x in s.jobs && y in s.jobs && s.items[x].agent == s.items[y].agent
    requires s.jobs[x].status == Running && s.jobs[y].status == Running
    ensures x == y
  {
    StatusMatchesPlace(s, x);
    StatusMatchesPlace(s, y);
    assert JobOk(s, x) && JobOk(s, y);
  }

  // ---------------------------------------------------------------------------------
  // Order

  function Of(m: map<Agent, seq<Item>>, a: Agent): seq<Item> {
    if a in m then m[a] else []
  }

  lemma StepAppendsSent(s: State, step: Step, a: Agent)
    requires Shape(s) && Enabled(s, step)
    ensures Of(s.sent, a) <= Of(Apply(s, step).sent, a)
  {
  }

  lemma StepAppendsBegun(s: State, step: Step, a: Agent)
    requires Shape(s) && Enabled(s, step)
    ensures Of(s.begun, a) <= Of(Apply(s, step).begun, a)
  {
  }

  /** Deliveries and starts are only ever appended. */
  lemma {:induction false} HistoryGrows(states: seq<State>, steps: seq<Step>, a: Agent, i: nat, j: nat)
    requires IsRun(states, steps) && i <= j < |states|
    requires forall k :: 0 <= k < |states| ==> Shape(states[k])
    ensures Of(states[i].sent, a) <= Of(states[j].sent, a) && Of(states[i].begun, a) <= Of(states[j].begun, a)
  {
    if i < j {
      HistoryGrows(states, steps, a, i, j - 1);
      StepAppendsSent(states[j-1], steps[j-1], a);
      StepAppendsBegun(states[j-1], steps[j-1], a);
    }
  }

  lemma BegunWithinSent(s: State, a: Agent)
    requires Inv(s)
    ensures Of(s.begun, a) <= Of(s.sent, a)
  {
    if a in s.queues { assert AgentOk(s, a); }
  }

  /** An agent's jobs start in the order they were delivered: at every moment of a run, what
    * has started is a prefix of what has been delivered by any later moment. */
  lemma StartsInDeliveryOrder(states: seq<State>, steps: seq<Step>, a: Agent, i: nat, j: nat)
    requires IsRun(states, steps) && states[0] == INITIAL && i <= j < |states|
    ensures Of(states[i].begun, a) <= Of(states[j].sent, a)
  {
    forall k | 0 <= k < |states| ensures Shape(states[k]) { ReachableInv(states, steps, k); }
    ReachableInv(states, steps, i);
    BegunWithinSent(states[i], a);
    HistoryGrows(states, steps, a, i, j);
  }

  // ---------------------------------------------------------------------------------
  // Eviction

  lemma EvictedWereFinished(s: State, step: Step, e: JobId)
    requires Inv(s) && step.Register? && Enabled(s, step) && e in s.jobs && e !in Apply(s, step).jobs
    ensures e in step.evicted && At(s, e, Finished) && Evictable(s.jobs[e])
  {
    assert e in Terminals(s.jobs[step.id := NewJob(step.agent, step.session, step.now)]);
    StatusMatchesPlace(s, e);
  }

  lemma EvictedAreOldest(s: State, step: Step, e: JobId, r: JobId)
    requires Shape(s) && step.Register? && Enabled(s, step) && e in step.evicted && e != step.id
    requires r in Apply(s, step).jobs && r != step.id && Evictable(Apply(s, step).jobs[r])
    ensures e in s.jobs && s.jobs[e].doneAt.Some? && s.jobs[e].doneAt.value <= Apply(s, step).jobs[r].doneAt.value
  {
    var jobs := s.jobs[step.id := NewJob(step.agent, step.session, step.now)];
    assert e in Terminals(jobs) && r in Terminals(jobs) - step.evicted;
  }

  /** Right after a job is registered the table is within its bound or holds no finished
    * job, and full if any was evicted; the jobs evicted were finished, and none left behind
    * finished before them. */
  lemma RegisterBoundsTable(s: State, step: Step)
    requires Inv(s) && step.Register? && Enabled(s, step)
    ensures var t := Apply(s, step);
      && (|t.jobs| <= MAX_JOBS || Terminals(t.jobs) == {})
      && step.id in t.jobs
      && (forall e :: e in s.jobs && e !in t.jobs ==> |t.jobs| >= MAX_JOBS)
      && (forall e :: e in s.jobs && e !in t.jobs ==> At(s, e, Finished) && Evictable(s.jobs[e]))
      && (forall e, r :: e in s.jobs && e !in t.jobs && r in t.jobs && r != step.id && Evictable(t.jobs[r]) ==>
            s.jobs[e].doneAt.value <= t.jobs[r].doneAt.value)
  {
    var jobs, t := s.jobs[step.id := NewJob(step.agent, step.session, step.now)], Apply(s, step);
    PruneBound(jobs, step.evicted);
    assert step.id !in Terminals(jobs);
    forall e | e in s.jobs && e !in t.jobs ensures e in step.evicted && At(s, e, Finished) && Evictable(s.jobs[e]) {
      EvictedWereFinished(s, step, e);
    }
    forall e, r | e in s.jobs && e !in t.jobs && r in t.jobs && r != step.id && Evictable(t.jobs[r])
      ensures s.jobs[e].doneAt.value <= t.jobs[r].doneAt.value
    {
      EvictedAreOldest(s, step, e, r);
    }
  }
}
