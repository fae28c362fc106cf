/** The worker as a concurrent protocol: callers, per-agent queues and per-agent runners.
  *
  * Each step is one section run under the mutex or one channel operation, so every
  * interleaving of the goroutines is a sequence of steps.
  */
module WorkerProtocol {
  import opened JobTable
  import opened Wrappers

  /** Where the goroutine of one Enqueue call stands. */
  datatype Caller = Registered | Sending | Returned | Dropped

  /** Where an agent's runner stands; `Took` is between the receive and the status update. */
  datatype Runner = Idle | Took(item: Item) | Busy(item: Item) | Exited

  datatype State = State(
    jobs: Table,
    queues: map<Agent, seq<Item>>,
    closed: bool,
    items: map<JobId, Item>,
    callers: map<JobId, Caller>,
    runners: map<Agent, Runner>,
    sent: map<Agent, seq<Item>>,    // history: every item delivered to the agent's queue
    begun: map<Agent, seq<Item>>,   // history: every item the runner marked running
    clock: nat                      // the latest time read under the mutex
  )

  datatype Step =
    | Register(id: JobId, agent: Agent, session: string, now: nat, evicted: set<JobId>)
    | Lookup(id: JobId)
    | Send(id: JobId)
    | Abandon(id: JobId)
    | Receive(runner: Agent)
    | Begin(runner: Agent, now: nat)
    | Finish(runner: Agent, ok: bool, error: string, now: nat)
    | Exit(runner: Agent)
    | Close

  const INITIAL := State(map[], map[], false, map[], map[], map[], map[], map[], 0)

  ghost predicate Enabled(s: State, step: Step) {
    match step
    case Register(id, agent, session, now, evicted) =>
      id !in s.items && LegalEviction(s.jobs[id := NewJob(agent, session, now)], evicted)
    case Lookup(id) => id in s.callers && s.callers[id] == Registered && id in s.items
    case Send(id) =>
      && id in s.callers && s.callers[id] == Sending && !s.closed
      && id in s.items && s.items[id].agent in s.queues && s.items[id].agent in s.sent
      && |s.queues[s.items[id].agent]| < QUEUE_CAPACITY
    case Abandon(id) => id in s.callers && s.callers[id] == Sending && s.closed
    case Receive(a) => a in s.runners && s.runners[a] == Idle && a in s.queues && s.queues[a] != []
    case Begin(a, now) => a in s.runners && s.runners[a].Took? && a in s.begun && now >= s.clock
    case Finish(a, _, _, now) => a in s.runners && s.runners[a].Busy? && now >= s.clock
    case Exit(a) => a in s.runners && s.runners[a] == Idle && s.closed && a in s.queues && s.queues[a] == []
    case Close => !s.closed
  }

  function Spawned<V>(m: map<Agent, V>, a: Agent, known: bool, v: V): map<Agent, V> {
    if known then m else m[a := v]
  }

  ghost function Apply(s: State, step: Step): State
    requires Enabled(s, step)
  {
    match step
    case Register(id, agent, session, now, evicted) =>
      s.(jobs := s.jobs[id := NewJob(agent, session, now)] - evicted,
         items := s.items[id := Item(id, agent, session)], callers := s.callers[id := Registered])
    case Lookup(id) =>
      if s.closed then s.(callers := s.callers[id := Dropped])
      else
        var a := s.items[id].agent;
        var known := a in s.queues;
        s.(callers := s.callers[id := Sending], queues := WithQueue(s.queues, a),
           runners := Spawned(s.runners, a, known, Idle),
           sent := Spawned(s.sent, a, known, []), begun := Spawned(s.begun, a, known, []))
    case Send(id) =>
      var it := s.items[id];
      s.(callers := s.callers[id := Returned],
         queues := s.queues[it.agent := s.queues[it.agent] + [it]],
         sent := s.sent[it.agent := s.sent[it.agent] + [it]])
    case Abandon(id) => s.(callers := s.callers[id := Dropped])
    case Receive(a) =>
      s.(queues := s.queues[a := s.queues[a][1..]], runners := s.runners[a := Took(s.queues[a][0])])
    case Begin(a, now) =>
      var it := s.runners[a].item;
      s.(jobs := WithStatus(s.jobs, it.job, Running, "", now), runners := s.runners[a := Busy(it)],
         begun := s.begun[a := s.begun[a] + [it]], clock := now)
    case Finish(a, ok, error, now) =>
      var it := s.runners[a].item;
      s.(jobs := WithStatus(s.jobs, it.job, if ok then Done else Failed, if ok then "" else error, now),
         runners := s.runners[a := Idle], clock := now)
    case Exit(a) => s.(runners := s.runners[a := Exited])
    case Close => s.(closed := true)
  }

  // ---------------------------------------------------------------------------------
  // The invariant

  function Held(r: Runner): seq<Item> {
    if r.Took? then [r.item] else []
  }

  ghost predicate Pending(jobs: Table, id: JobId) {
    id in jobs && jobs[id].status == Queued && jobs[id].doneAt == None
  }

  ghost predicate Executing(jobs: Table, id: JobId) {
    id in jobs && jobs[id].status == Running && jobs[id].doneAt == None
  }

  /** Delivered to the agent and not yet marked running. */
  ghost predicate Underway(s: State, it: Item) {
    (it.agent in s.queues && it in s.queues[it.agent]) || (it.agent in s.runners && s.runners[it.agent] == Took(it))
  }

  ghost predicate BusyWith(s: State, it: Item) {
    it.agent in s.runners && s.runners[it.agent] == Busy(it)
  }

  ghost predicate JobOk(s: State, id: JobId) {
    id in s.callers && id in s.items &&
    var it := s.items[id];
    && it.job == id
    && (s.callers[id].Registered? ==> Pending(s.jobs, id))
    && (s.callers[id].Sending? ==> Pending(s.jobs, id) && it.agent in s.queues)
    && (s.callers[id].Dropped? ==> Pending(s.jobs, id) && s.closed)
    && (s.callers[id].Returned? ==> it.agent in s.sent && it in s.sent[it.agent])
    && (s.callers[id].Returned? && Underway(s, it) ==> Pending(s.jobs, id))
    && (s.callers[id].Returned? && BusyWith(s, it) ==> Executing(s.jobs, id))
    && (s.callers[id].Returned? && !Underway(s, it) && !BusyWith(s, it) && id in s.jobs ==> Evictable(s.jobs[id]))
  }

  ghost predicate Distinct(items: seq<Item>) {
    forall i, j :: 0 <= i < j < |items| ==> items[i] != items[j]
  }

  ghost predicate Delivered(s: State, a: Agent, it: Item) {
    it.agent == a && it.job in s.callers && s.callers[it.job] == Returned && it.job in s.items && s.items[it.job] == it
  }

  ghost predicate AgentOk(s: State, a: Agent) {
    && a in s.queues && a in s.runners && a in s.sent && a in s.begun
    && s.sent[a] == s.begun[a] + Held(s.runners[a]) + s.queues[a]
    && Distinct(s.sent[a])
    && (forall k :: 0 <= k < |s.sent[a]| ==> Delivered(s, a, s.sent[a][k]))
    && |s.queues[a]| <= QUEUE_CAPACITY
    && (s.runners[a].Busy? ==> s.begun[a] != [] && s.begun[a][|s.begun[a]|-1] == s.runners[a].item)
    && (s.runners[a].Exited? ==> s.closed && s.queues[a] == [])
  }

  ghost predicate Shape(s: State) {
    && s.items.Keys == s.callers.Keys
    && s.jobs.Keys <= s.callers.Keys
    && s.queues.Keys == s.runners.Keys == s.sent.Keys == s.begun.Keys
    && (forall id :: id in s.jobs && s.jobs[id].doneAt.Some? ==> s.jobs[id].doneAt.value <= s.clock)
  }

  ghost predicate Inv(s: State) {
    && Shape(s)
    && (forall id :: id in s.callers ==> JobOk(s, id))
    && (forall a :: a in s.queues ==> AgentOk(s, a))
  }

  lemma InitiallyInv()
    ensures Inv(INITIAL)
  {
  }

  // ---------------------------------------------------------------------------------
  // Every step keeps the invariant

  /** What every step leaves alone: delivered items stay delivered, and closing is final. */
  ghost predicate Extends(s: State, t: State) {
    && (s.closed ==> t.closed)
    && (forall id :: id in s.callers && s.callers[id] == Returned && id in s.items ==>
          id in t.callers && t.callers[id] == Returned && id in t.items && t.items[id] == s.items[id])
  }

  /** An agent whose queue, runner and history a step leaves alone stays in order. */
  lemma AgentFrame(s: State, t: State, a: Agent)
    requires a in s.queues && a in s.runners && a in s.sent && a in s.begun && AgentOk(s, a)
    requires a in t.queues && a in t.runners && a in t.sent && a in t.begun
    requires t.queues[a] == s.queues[a] && t.runners[a] == s.runners[a]
    requires t.sent[a] == s.sent[a] && t.begun[a] == s.begun[a]
    requires Extends(s, t)
    ensures AgentOk(t, a)
  {
    DeliveredFrame(s, t, a, s.sent[a]);
  }

  lemma DeliveredFrame(s: State, t: State, a: Agent, items: seq<Item>)
    requires Extends(s, t)
    requires forall k :: 0 <= k < |items| ==> Delivered(s, a, items[k])
    ensures forall k :: 0 <= k < |items| ==> Delivered(t, a, items[k])
  {
  }

  /** A job whose caller, record, queue and runner a step leaves alone stays in order. */
  lemma JobFrame(s: State, t: State, id: JobId)
    requires id in s.callers && id in s.items && JobOk(s, id)
    requires id in t.callers && id in t.items && t.callers[id] == s.callers[id] && t.items[id] == s.items[id]
    requires s.closed ==> t.closed
    requires if id in s.jobs then (id in t.jobs && t.jobs[id] == s.jobs[id]) || (id !in t.jobs && Evictable(s.jobs[id]))
             else id !in t.jobs
    requires var a := s.items[id].agent;
      && (a in s.queues ==> a in t.queues && t.queues[a] == s.queues[a])
      && (a in s.runners ==> a in t.runners && t.runners[a] == s.runners[a])
      && (a in s.sent ==> a in t.sent && t.sent[a] == s.sent[a])
      && (a !in s.queues && a in t.queues ==> t.queues[a] == [])
      && (a !in s.runners && a in t.runners ==> t.runners[a] == Idle)
    ensures JobOk(t, id)
  {
  }

  lemma ExtendsBy(s: State, t: State, id: JobId, c: Caller, it: Item)
    requires s.closed ==> t.closed
    requires id in s.callers && id in s.items ==> s.callers[id] != Returned
    requires t.callers == s.callers[id := c]
    requires t.items == s.items || t.items == s.items[id := it]
    ensures Extends(s, t)
  {
  }

  lemma StepExtends(s: State, step: Step)
    requires Shape(s) && Enabled(s, step)
    ensures Extends(s, Apply(s, step))
  {
    var t, none := Apply(s, step), Item("", "", "");
    if step.Register? {
      ExtendsBy(s, t, step.id, Registered, Item(step.id, step.agent, step.session));
    } else if step.Lookup? || step.Send? || step.Abandon? {
      ExtendsBy(s, t, step.id, t.callers[step.id], none);
    }
  }

  // The shape, step by step

  lemma RegisterShape(s: State, step: Step)
    requires Shape(s) && step.Register? && Enabled(s, step)
    ensures Shape(Apply(s, step))
  {
  }

  lemma LookupShape(s: State, step: Step)
    requires Shape(s) && step.Lookup? && Enabled(s, step)
    ensures Shape(Apply(s, step))
  {
  }

  lemma QueueShape(s: State, step: Step)
    requires Shape(s) && (step.Send? || step.Receive?) && Enabled(s, step)
    ensures Shape(Apply(s, step))
  {
  }

  lemma StatusShape(s: State, step: Step)
    requires Shape(s) && (step.Begin? || step.Finish?) && Enabled(s, step)
    requires s.runners[step.runner].item.job in s.callers
    ensures Shape(Apply(s, step))
  {
  }

  lemma StepKeepsShape(s: State, step: Step)
    requires Shape(s) && Enabled(s, step)
    requires step.Begin? ==> s.runners[step.runner].item.job in s.callers
    requires step.Finish? ==> s.runners[step.runner].item.job in s.callers
    ensures Shape(Apply(s, step))
  {
    match step
    case Register(_, _, _, _, _) => RegisterShape(s, step);
    case Lookup(_) => LookupShape(s, step);
    case Send(_) => QueueShape(s, step);
    case Receive(_) => QueueShape(s, step);
    case Begin(_, _) => StatusShape(s, step);
    case Finish(_, _, _, _) => StatusShape(s, step);
    case _ =>
  }

  /** The item a runner holds was delivered to it, and is no longer in its queue. */
  lemma TakenDelivered(s: State, a: Agent)
    requires Shape(s) && a in s.queues && AgentOk(s, a) && (s.runners[a].Took? || s.runners[a].Busy?)
    ensures Delivered(s, a, s.runners[a].item) && s.runners[a].item !in s.queues[a]
    ensures s.runners[a].Took? ==> s.runners[a].item !in s.begun[a]
  {
    var it, n, sent := s.runners[a].item, |s.begun[a]|, s.sent[a];
    var at := if s.runners[a].Took? then n else n - 1;
    assert sent[at] == it;
    forall k | 0 <= k < |s.queues[a]| ensures s.queues[a][k] != it {
      assert sent[n + |Held(s.runners[a])| + k] == s.queues[a][k];
    }
    if s.runners[a].Took? {
      forall k | 0 <= k < n ensures s.begun[a][k] != it { assert sent[k] == s.begun[a][k]; }
    }
  }

  // Jobs, step by step

  lemma RegisterJob(s: State, step: Step, id: JobId)
    requires Shape(s) && step.Register? && Enabled(s, step)
    requires id == step.id || (id in s.callers && JobOk(s, id))
    ensures JobOk(Apply(s, step), id)
  {
    var t, jobs := Apply(s, step), s.jobs[step.id := NewJob(step.agent, step.session, step.now)];
    assert step.id !in Terminals(jobs);
    if id != step.id {
      assert id in step.evicted ==> id in Terminals(jobs);
      JobFrame(s, t, id);
    }
  }

  lemma SendJob(s: State, step: Step, id: JobId)
    requires Shape(s) && step.Send? && Enabled(s, step) && id in s.callers && JobOk(s, id) && JobOk(s, step.id)
    requires AgentOk(s, s.items[step.id].agent)
    ensures JobOk(Apply(s, step), id)
  {
    var t, it, me := Apply(s, step), s.items[step.id], s.items[id];
    if me.agent != it.agent {
      JobFrame(s, t, id);
    } else {
      assert me in t.queues[it.agent] <==> me in s.queues[it.agent] || me == it;
      assert me in t.sent[it.agent] <==> me in s.sent[it.agent] || me == it;
      if s.runners[it.agent].Busy? { TakenDelivered(s, it.agent); }
    }
  }

  lemma ReceiveJob(s: State, step: Step, id: JobId)
    requires Shape(s) && step.Receive? && Enabled(s, step) && AgentOk(s, step.runner)
    requires id in s.callers && JobOk(s, id)
    ensures JobOk(Apply(s, step), id)
  {
    var q, me := s.queues[step.runner], s.items[id];
    if me.agent != step.runner {
      JobFrame(s, Apply(s, step), id);
    } else {
      assert q == [q[0]] + q[1..];
      assert me in q <==> me == q[0] || me in q[1..];
      assert Underway(s, me) <==> Underway(Apply(s, step), me);
    }
  }

  /** A runner's status update concerns the job it holds and no job of another agent. */
  lemma OtherRunnerJob(s: State, step: Step, id: JobId)
    requires Shape(s) && (step.Begin? || step.Finish?) && Enabled(s, step) && AgentOk(s, step.runner)
    requires id in s.callers && JobOk(s, id) && s.items[id].agent != step.runner
    ensures JobOk(Apply(s, step), id)
  {
    TakenDelivered(s, step.runner);
    assert s.runners[step.runner].item.job != id;
    JobFrame(s, Apply(s, step), id);
  }

  lemma BeginJob(s: State, step: Step, id: JobId)
    requires Shape(s) && step.Begin? && Enabled(s, step) && AgentOk(s, step.runner)
    requires id in s.callers && JobOk(s, id) && s.items[id].agent == step.runner
    ensures JobOk(Apply(s, step), id)
  {
    TakenDelivered(s, step.runner);
    assert s.items[id] == s.runners[step.runner].item <==> id == s.runners[step.runner].item.job;
  }

  lemma FinishJob(s: State, step: Step, id: JobId)
    requires Shape(s) && step.Finish? && Enabled(s, step) && AgentOk(s, step.runner)
    requires id in s.callers && JobOk(s, id) && s.items[id].agent == step.runner
    ensures JobOk(Apply(s, step), id)
  {
    TakenDelivered(s, step.runner);
    assert s.items[id] == s.runners[step.runner].item <==> id == s.runners[step.runner].item.job;
  }

  lemma StatusJob(s: State, step: Step, id: JobId)
    requires Shape(s) && (step.Begin? || step.Finish?) && Enabled(s, step) && AgentOk(s, step.runner)
    requires id in s.callers && JobOk(s, id)
    ensures JobOk(Apply(s, step), id)
  {
    if s.items[id].agent != step.runner {
      OtherRunnerJob(s, step, id);
    } else if step.Begin? {
      BeginJob(s, step, id);
    } else {
      FinishJob(s, step, id);
    }
  }

  lemma LookupJob(s: State, step: Step, id: JobId)
    requires Shape(s) && step.Lookup? && Enabled(s, step) && id in s.callers && JobOk(s, id)
    ensures JobOk(Apply(s, step), id)
  {
    if step.id != id { JobFrame(s, Apply(s, step), id); }
  }

  lemma QuietJob(s: State, step: Step, id: JobId)
    requires Shape(s) && Enabled(s, step) && id in s.callers && JobOk(s, id)
    requires step.Abandon? || step.Exit? || step.Close?
    ensures JobOk(Apply(s, step), id)
  {
    if !step.Exit? && !(step.Abandon? && step.id == id) { JobFrame(s, Apply(s, step), id); }
  }

  lemma JobKeeps(s: State, step: Step, id: JobId)
    requires Inv(s) && Enabled(s, step) && id in s.callers
    ensures JobOk(Apply(s, step), id)
  {
    match step
    case Register(_, _, _, _, _) => RegisterJob(s, step, id);
    case Send(other) => SendJob(s, step, id);
    case Receive(a) => ReceiveJob(s, step, id);
    case Begin(_, _) => StatusJob(s, step, id);
    case Finish(_, _, _, _) => StatusJob(s, step, id);
    case Lookup(_) => LookupJob(s, step, id);
    case _ => QuietJob(s, step, id);
  }

  // Agents, step by step

  lemma SendAgent(s: State, step: Step)
    requires Shape(s) && step.Send? && Enabled(s, step) && JobOk(s, step.id)
    requires AgentOk(s, s.items[step.id].agent)
    ensures AgentOk(Apply(s, step), s.items[step.id].agent)
  {
    var t, it := Apply(s, step), s.items[step.id];
    var b := it.agent;
    forall k | 0 <= k < |s.sent[b]| ensures s.sent[b][k] != it && Delivered(t, b, s.sent[b][k]) {
      assert Delivered(s, b, s.sent[b][k]);
    }
    assert Delivered(t, b, it);
  }

  /** Started, held and waiting items, in this order, stay what was delivered. */
  lemma RunnerParts(s: State, step: Step, a: Agent)
    requires Shape(s) && Enabled(s, step) && a in s.queues && AgentOk(s, a)
    requires step.Receive? || step.Begin? || step.Finish? || step.Exit?
    requires step.runner == a
    ensures var t := Apply(s, step);
      && t.sent == s.sent && t.sent[a] == t.begun[a] + Held(t.runners[a]) + t.queues[a]
      && |t.queues[a]| <= |s.queues[a]|
  {
    if step.Receive? { assert s.queues[a] == [s.queues[a][0]] + s.queues[a][1..]; }
  }

  lemma RunnerAgent(s: State, step: Step, a: Agent)
    requires Shape(s) && Enabled(s, step) && a in s.queues && AgentOk(s, a)
    requires step.Receive? || step.Begin? || step.Finish? || step.Exit?
    requires step.runner == a
    ensures AgentOk(Apply(s, step), a)
  {
    StepExtends(s, step);
    RunnerParts(s, step, a);
    DeliveredFrame(s, Apply(s, step), a, s.sent[a]);
  }

  /** The step is one of the agent's runner, or a delivery to its queue. */
  ghost predicate Concerns(s: State, step: Step, a: Agent)
    requires Enabled(s, step)
  {
    match step
    case Send(id) => s.items[id].agent == a
    case Receive(b) => b == a
    case Begin(b, _) => b == a
    case Finish(b, _, _, _) => b == a
    case Exit(b) => b == a
    case _ => false
  }

  lemma OtherAgent(s: State, step: Step, a: Agent)
    requires Shape(s) && Enabled(s, step) && a in s.queues && AgentOk(s, a) && !Concerns(s, step, a)
    ensures AgentOk(Apply(s, step), a)
  {
    StepExtends(s, step);
    AgentFrame(s, Apply(s, step), a);
  }

  lemma AgentKeeps(s: State, step: Step, a: Agent)
    requires Inv(s) && Enabled(s, step) && a in s.queues
    ensures AgentOk(Apply(s, step), a)
  {
    assert AgentOk(s, a);
    if !Concerns(s, step, a) {
      OtherAgent(s, step, a);
    } else if step.Send? {
      assert JobOk(s, step.id);
      SendAgent(s, step);
    } else {
      RunnerAgent(s, step, a);
    }
  }

  lemma NewcomersOk(s: State, step: Step)
    requires Shape(s) && Enabled(s, step)
    ensures forall id :: id in Apply(s, step).callers && id !in s.callers ==> step.Register? && id == step.id
    ensures forall a :: a in Apply(s, step).queues && a !in s.queues ==>
      var t := Apply(s, step);
      a in t.runners && a in t.sent && a in t.begun && t.runners[a] == Idle &&
        t.queues[a] == t.sent[a] == t.begun[a] == []
  {
  }

  lemma StepKeepsJobs(s: State, step: Step)
    requires Inv(s) && Enabled(s, step)
    ensures forall id :: id in Apply(s, step).callers ==> JobOk(Apply(s, step), id)
  {
    NewcomersOk(s, step);
    forall id | id in Apply(s, step).callers ensures JobOk(Apply(s, step), id) {
      if id in s.callers { JobKeeps(s, step, id); } else { RegisterJob(s, step, id); }
    }
  }

  lemma StepKeepsAgents(s: State, step: Step)
    requires Inv(s) && Enabled(s, step)
    ensures forall a :: a in Apply(s, step).queues ==> AgentOk(Apply(s, step), a)
  {
    NewcomersOk(s, step);
    forall a | a in Apply(s, step).queues ensures AgentOk(Apply(s, step), a) {
      if a in s.queues { AgentKeeps(s, step, a); }
    }
  }

  /** Every step of every interleaving keeps the invariant. */
  lemma StepKeepsInv(s: State, step: Step)
    requires Inv(s) && Enabled(s, step)
    ensures Inv(Apply(s, step))
  {
    if step.Begin? || step.Finish? {
      assert AgentOk(s, step.runner);
      TakenDelivered(s, step.runner);
    }
    StepKeepsShape(s, step);
    StepKeepsJobs(s, step);
    StepKeepsAgents(s, step);
  }
}
