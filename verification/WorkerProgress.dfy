/** The worker cannot get stuck, and what it was given it finishes. */
module WorkerProgress {
  import opened JobTable
  import opened WorkerProtocol
  import opened WorkerTheorems

  /** The sum of a map's values. */
  ghost function Sum<K(!new)>(m: map<K, nat>): nat
    decreases m.Keys
  {
    if m == map[] then 0
    else
      var k :| k in m;
      assert (m - {k}).Keys == m.Keys - {k};
      m[k] + Sum(m - {k})
  }

  lemma {:induction false} SumWithout<K(!new)>(m: map<K, nat>, k: K)
    requires k in m
    ensures Sum(m) == m[k] + Sum(m - {k})
    decreases m.Keys
  {
    var j :| j in m && Sum(m) == m[j] + Sum(m - {j});
    if j != k {
      assert (m - {j}).Keys == m.Keys - {j} && (m - {k}).Keys == m.Keys - {k};
      SumWithout(m - {j}, k);
      SumWithout(m - {k}, j);
      assert m - {j} - {k} == m - {k} - {j};
    }
  }

  lemma SumUpdate<K(!new)>(m: map<K, nat>, k: K, v: nat)
    ensures Sum(m[k := v]) == v + Sum(m) - if k in m then m[k] else 0
  {
    SumWithout(m[k := v], k);
    if k in m {
      SumWithout(m, k);
      assert m[k := v] - {k} == m - {k};
    } else {
      assert m[k := v] - {k} == m;
    }
  }

  // ---------------------------------------------------------------------------------
  // The measure

  function CallerRank(c: Caller): nat {
    match c
    case Registered => 6
    case Sending => 4
    case Returned => 0
    case Dropped => 0
  }

  function RunnerRank(r: Runner): nat {
    match r
    case Idle => 1
    case Took(_) => 3
    case Busy(_) => 2
    case Exited => 0
  }

  ghost function CallerWeights(s: State): map<JobId, nat> {
    map id | id in s.callers :: CallerRank(s.callers[id])
  }

  ghost function AgentWeights(s: State): map<Agent, nat> {
    map a | a in s.runners && a in s.queues :: RunnerRank(s.runners[a]) + 3 * |s.queues[a]|
  }

  /** How many steps are left before everything registered is settled, at most. */
  ghost function Measure(s: State): nat {
    Sum(CallerWeights(s)) + Sum(AgentWeights(s))
  }

  /** Steps the worker takes by itself, with no new Enqueue and no Close. */
  predicate Internal(step: Step) {
    !step.Register? && !step.Close?
  }

  lemma CallerMoves(s: State, t: State, id: JobId, c: Caller)
    requires id in s.callers && t.callers == s.callers[id := c]
    ensures Sum(CallerWeights(t)) == Sum(CallerWeights(s)) - CallerRank(s.callers[id]) + CallerRank(c)
  {
    SumUpdate(CallerWeights(s), id, CallerRank(c));
    assert CallerWeights(t) == CallerWeights(s)[id := CallerRank(c)];
  }

  lemma QueueGrows(s: State, t: State, a: Agent, it: Item)
    requires a in s.runners && a in s.queues && t.runners == s.runners && t.queues == s.queues[a := s.queues[a] + [it]]
    ensures Sum(AgentWeights(t)) == Sum(AgentWeights(s)) + 3
  {
    var w := RunnerRank(s.runners[a]) + 3 * (|s.queues[a]| + 1);
    SumUpdate(AgentWeights(s), a, w);
    assert AgentWeights(t) == AgentWeights(s)[a := w];
  }

  lemma CallerStep(s: State, step: Step)
    requires Shape(s) && Enabled(s, step) && (step.Send? || step.Abandon?)
    ensures Measure(Apply(s, step)) < Measure(s)
  {
    var t := Apply(s, step);
    if step.Send? {
      CallerMoves(s, t, step.id, Returned);
      QueueGrows(s, t, s.items[step.id].agent, s.items[step.id]);
    } else {
      CallerMoves(s, t, step.id, Dropped);
    }
  }

  lemma LookupStep(s: State, step: Step)
    requires Shape(s) && Enabled(s, step) && step.Lookup?
    ensures Measure(Apply(s, step)) < Measure(s)
  {
    var t, a := Apply(s, step), s.items[step.id].agent;
    if s.closed {
      CallerMoves(s, t, step.id, Dropped);
    } else {
      CallerMoves(s, t, step.id, Sending);
      if a !in s.queues { NewAgent(s, t, a); }
    }
  }

  lemma NewAgent(s: State, t: State, a: Agent)
    requires Shape(s) && a !in s.queues && t.runners == s.runners[a := Idle] && t.queues == s.queues[a := []]
    ensures Sum(AgentWeights(t)) == Sum(AgentWeights(s)) + 1
  {
    SumUpdate(AgentWeights(s), a, 1);
    assert AgentWeights(t) == AgentWeights(s)[a := 1];
  }

  lemma AgentMoves(s: State, t: State, a: Agent, r: Runner, q: seq<Item>)
    requires a in s.runners && a in s.queues && t.callers == s.callers
    requires t.runners == s.runners[a := r] && t.queues == s.queues[a := q]
    requires RunnerRank(r) + 3 * |q| < RunnerRank(s.runners[a]) + 3 * |s.queues[a]|
    ensures Measure(t) < Measure(s)
  {
    assert CallerWeights(t) == CallerWeights(s);
    var w := RunnerRank(r) + 3 * |q|;
    SumUpdate(AgentWeights(s), a, w);
    assert AgentWeights(t) == AgentWeights(s)[a := w];
  }

  lemma RunnerStep(s: State, step: Step)
    requires Shape(s) && Enabled(s, step) && (step.Receive? || step.Begin? || step.Finish? || step.Exit?)
    ensures Measure(Apply(s, step)) < Measure(s)
  {
    var t, a := Apply(s, step), step.runner;
    if !step.Receive? { assert s.queues == s.queues[a := s.queues[a]]; }
    AgentMoves(s, t, a, t.runners[a], t.queues[a]);
  }

  /** Every internal step brings the worker nearer to rest. */
  lemma InternalStepsDecrease(s: State, step: Step)
    requires Inv(s) && Enabled(s, step) && Internal(step)
    ensures Measure(Apply(s, step)) < Measure(s)
  {
    match step
    case Send(_) => CallerStep(s, step);
    case Abandon(_) => CallerStep(s, step);
    case Lookup(_) => LookupStep(s, step);
    case _ => RunnerStep(s, step);
  }

  /** Left alone, the worker takes at most `Measure` steps. */
  lemma {:induction false} RunsAreBounded(states: seq<State>, steps: seq<Step>, n: nat)
    requires IsRun(states, steps) && Inv(states[0]) && n <= |steps|
    requires forall i :: 0 <= i < |steps| ==> Internal(steps[i])
    ensures n + Measure(states[n]) <= Measure(states[0])
  {
    if n > 0 {
      RunsAreBounded(states, steps, n - 1);
      RunKeepsInv(states, steps, n - 1);
      InternalStepsDecrease(states[n-1], steps[n-1]);
    }
  }

  // ---------------------------------------------------------------------------------
  // Something can always move

  ghost predicate Settled(s: State, id: JobId)
    requires id in s.callers && id in s.items
  {
    At(s, id, Finished) || At(s, id, Lost)
  }

  /** While some job is undelivered or unfinished an internal step is enabled: full queues
    * never block the section that would drain them. */
  lemma UnsettledCanMove(s: State, id: JobId, now: nat) returns (step: Step)
    requires Inv(s) && id in s.callers && !Settled(s, id) && now >= s.clock
    ensures Internal(step) && Enabled(s, step)
  {
    var it := s.items[id];
    assert JobOk(s, id);
    if s.callers[id] == Registered {
      step := Lookup(id);
    } else if s.callers[id] == Sending && s.closed {
      step := Abandon(id);
    } else if s.callers[id] == Sending && |s.queues[it.agent]| < QUEUE_CAPACITY {
      step := Send(id);
    } else {
      if s.callers[id] == Returned { DeliveredOnce(s, id); } else { assert s.callers[id] == Sending; }
      step := RunnerCanMove(s, it.agent, now);
    }
  }

  lemma RunnerCanMove(s: State, a: Agent, now: nat) returns (step: Step)
    requires Inv(s) && a in s.queues && now >= s.clock
    requires s.queues[a] != [] || s.runners[a].Took? || s.runners[a].Busy?
    ensures Internal(step) && Enabled(s, step)
  {
    assert AgentOk(s, a);
    match s.runners[a]
    case Idle => step := Receive(a);
    case Took(_) => step := Begin(a, now);
    case Busy(_) => step := Finish(a, true, "", now);
  }

  /** At rest every registered job is settled, and before Close settled means finished. */
  lemma RestMeansDone(s: State, id: JobId)
    requires Inv(s) && id in s.callers
    requires forall step :: Internal(step) ==> !Enabled(s, step)
    ensures Settled(s, id) && (!s.closed ==> At(s, id, Finished))
  {
    if !Settled(s, id) {
      var step := UnsettledCanMove(s, id, s.clock);
    }
    assert JobOk(s, id);
  }
}
