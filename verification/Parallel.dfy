/** The bounded, fail-fast parallel map behind s1, under every schedule.
  *
  * One goroutine per index: it takes a semaphore slot or gives up on a cancelled context,
  * calls the function, records its result or the first error, and releases the slot.
  */
module Parallel {
  import opened Wrappers

  datatype Phase = Waiting | Running | Recorded | Finished | Skipped

  datatype State<T, E> = State(
    phase: seq<Phase>,
    slots: seq<Option<T>>,     // what the calls have written
    calls: seq<nat>,           // history: how often each index's function was called
    sem: nat,
    first: Option<E>,
    cancelled: bool,           // cancelled by the first failure
    parentCancelled: bool      // cancelled from outside
  )

  datatype Step<T, E> =
    | Acquire(i: nat)
    | Skip(i: nat)
    | Return(i: nat, outcome: Result<T, E>)
    | Release(i: nat)
    | CancelParent

  function Start<T, E>(n: nat): State<T, E> {
    State(seq(n, _ => Waiting), seq(n, _ => None), seq(n, _ => 0), 0, None, false, false)
  }

  /** `maxConc`, with the source's default. */
  function Limit(maxConc: int): (r: nat)
    ensures r == if maxConc > 0 then maxConc else 4
  {
    if maxConc <= 0 then 4 else maxConc
  }

  /** A call that returns while its context is still live returned what `f` says; a call
    * that may have seen the cancellation can return anything. */
  ghost predicate Enabled<T, E>(s: State<T, E>, step: Step<T, E>, f: nat -> Result<T, E>, limit: nat) {
    match step
    case Acquire(i) => i < |s.phase| && i < |s.calls| && s.phase[i] == Waiting && s.sem < limit
    case Skip(i) => i < |s.phase| && s.phase[i] == Waiting && (s.cancelled || s.parentCancelled)
    case Return(i, outcome) =>
      && i < |s.phase| && i < |s.slots| && s.phase[i] == Running
      && (!s.cancelled && !s.parentCancelled ==> outcome == f(i))
    case Release(i) => i < |s.phase| && s.phase[i] == Recorded && s.sem > 0
    case CancelParent => !s.parentCancelled
  }

  ghost function Apply<T, E>(s: State<T, E>, step: Step<T, E>, f: nat -> Result<T, E>, limit: nat): State<T, E>
    requires Enabled(s, step, f, limit)
  {
    match step
    case Acquire(i) => s.(phase := s.phase[i := Running], calls := s.calls[i := s.calls[i] + 1], sem := s.sem + 1)
    case Skip(i) => s.(phase := s.phase[i := Skipped])
    case Return(i, outcome) =>
      (match outcome
       case Ok(v) => s.(phase := s.phase[i := Recorded], slots := s.slots[i := Some(v)])
       case Err(e) =>
         s.(phase := s.phase[i := Recorded], first := if s.first.None? then Some(e) else s.first, cancelled := true))
    case Release(i) => s.(phase := s.phase[i := Finished], sem := s.sem - 1)
    case CancelParent => s.(parentCancelled := true)
  }

  predicate InFlight(p: Phase) {
    p == Running || p == Recorded
  }

  function Count(phase: seq<Phase>): nat {
    if phase == [] then 0 else Count(phase[..|phase|-1]) + if InFlight(phase[|phase|-1]) then 1 else 0
  }

  lemma {:induction false} CountUpdate(phase: seq<Phase>, i: nat, p: Phase)
    requires i < |phase|
    ensures Count(phase[i := p]) + (if InFlight(phase[i]) then 1 else 0) == Count(phase) + if InFlight(p) then 1 else 0
  {
    var last := |phase| - 1;
    if i < last {
      CountUpdate(phase[..last], i, p);
      assert phase[i := p][..last] == phase[..last][i := p];
    } else {
      assert phase[i := p][..last] == phase[..last];
    }
  }

  lemma {:induction false} CountWitness(phase: seq<Phase>)
    ensures Count(phase) > 0 ==> exists i :: 0 <= i < |phase| && InFlight(phase[i])
    ensures Count(phase) == 0 ==> forall i :: 0 <= i < |phase| ==> !InFlight(phase[i])
    ensures Count(phase) <= |phase|
  {
    if phase != [] {
      CountWitness(phase[..|phase|-1]);
      assert forall i :: 0 <= i < |phase|-1 ==> phase[..|phase|-1][i] == phase[i];
      if InFlight(phase[|phase|-1]) { assert InFlight(phase[|phase|-1]); }
    }
  }

  // ---------------------------------------------------------------------------------
  // The invariant

  predicate Called(p: Phase) {
    InFlight(p) || p == Finished
  }

  predicate Returned(p: Phase) {
    p == Recorded || p == Finished
  }

  ghost predicate FailsWith<T, E>(f: nat -> Result<T, E>, n: nat, e: E) {
    exists i: nat :: i < n && f(i) == Err(e)
  }

  ghost predicate IndexOk<T, E>(s: State<T, E>, f: nat -> Result<T, E>, i: nat)
    requires i < |s.phase| == |s.slots| == |s.calls|
  {
    && s.calls[i] == (if Called(s.phase[i]) then 1 else 0)
    && (s.slots[i].Some? ==> Returned(s.phase[i]))
    && (s.phase[i] == Skipped ==> s.cancelled || s.parentCancelled)
    && (Returned(s.phase[i]) && s.first.None? ==> s.slots[i].Some?)
    && (Returned(s.phase[i]) && s.first.None? && !s.parentCancelled ==> f(i) == Ok(s.slots[i].value))
  }

  ghost predicate Inv<T, E>(s: State<T, E>, f: nat -> Result<T, E>, n: nat, limit: nat) {
    && n == |s.phase| == |s.slots| == |s.calls|
    && s.sem == Count(s.phase) <= limit
    && (s.cancelled <==> s.first.Some?)
    && (s.first.Some? && !s.parentCancelled ==> FailsWith(f, n, s.first.value))
    && (forall i :: 0 <= i < n ==> IndexOk(s, f, i))
  }

  lemma {:induction false} NoneInFlight(n: nat)
    ensures Count(seq(n, _ => Waiting)) == 0
  {
    if n > 0 {
      NoneInFlight(n - 1);
      assert seq(n, _ => Waiting)[..n-1] == seq(n - 1, _ => Waiting);
    }
  }

  lemma StartInv<T, E>(f: nat -> Result<T, E>, n: nat, limit: nat)
    ensures Inv(Start<T, E>(n), f, n, limit)
  {
    NoneInFlight(n);
  }

  lemma StepKeepsInv<T, E>(s: State<T, E>, step: Step<T, E>, f: nat -> Result<T, E>, n: nat, limit: nat)
    requires Inv(s, f, n, limit) && Enabled(s, step, f, limit)
    ensures Inv(Apply(s, step, f, limit), f, n, limit)
  {
    var t := Apply(s, step, f, limit);
    if !step.CancelParent? {
      CountUpdate(s.phase, step.i, t.phase[step.i]);
      assert IndexOk(s, f, step.i);
    }
    if step.Return? && step.outcome.Err? && s.first.None? && !s.parentCancelled {
      assert f(step.i) == Err(step.outcome.error);
    }
    forall i | 0 <= i < n ensures IndexOk(t, f, i) { assert IndexOk(s, f, i); }
  }

  // ---------------------------------------------------------------------------------
  // Runs

  ghost predicate IsRun<T, E>(states: seq<State<T, E>>, steps: seq<Step<T, E>>, f: nat -> Result<T, E>, n: nat,
                              limit: nat) {
    && |states| == |steps| + 1
    && states[0] == Start(n)
    && forall i {:trigger steps[i]} :: 0 <= i < |steps| ==>
         Enabled(states[i], steps[i], f, limit) && states[i+1] == Apply(states[i], steps[i], f, limit)
  }

  lemma {:induction false} RunInv<T, E>(states: seq<State<T, E>>, steps: seq<Step<T, E>>, f: nat -> Result<T, E>,
                                        n: nat, limit: nat, k: nat)
    requires IsRun(states, steps, f, n, limit) && k < |states|
    ensures Inv(states[k], f, n, limit)
  {
    if k == 0 {
      StartInv(f, n, limit);
    } else {
      RunInv(states, steps, f, n, limit, k - 1);
      StepKeepsInv(states[k-1], steps[k-1], f, n, limit);
    }
  }

  /** At every moment at most `limit` calls are in flight, and no index is called twice. */
  lemma NeverOverLimit<T, E>(states: seq<State<T, E>>, steps: seq<Step<T, E>>, f: nat -> Result<T, E>, n: nat,
                             limit: nat, k: nat)
    requires IsRun(states, steps, f, n, limit) && k < |states|
    ensures |states[k].phase| == n && Count(states[k].phase) <= limit
    ensures forall i :: 0 <= i < |states[k].calls| ==> states[k].calls[i] <= 1
  {
    RunInv(states, steps, f, n, limit, k);
    forall i | 0 <= i < n ensures states[k].calls[i] <= 1 { assert IndexOk(states[k], f, i); }
  }

  /** The wait group is down to zero: `runParallel` returns `first`. */
  ghost predicate Over<T, E>(s: State<T, E>) {
    forall i :: 0 <= i < |s.phase| ==> s.phase[i] == Finished || s.phase[i] == Skipped
  }

  /** When it returns every slot of the semaphore has been given back. */
  lemma ReturnsIdle<T, E>(s: State<T, E>, f: nat -> Result<T, E>, n: nat, limit: nat)
    requires Inv(s, f, n, limit) && Over(s)
    ensures s.sem == 0
  {
    CountWitness(s.phase);
  }

  /** With a live parent it returns nil exactly when every call succeeds, and then every
    * index was called once and its slot holds its own result. */
  lemma LiveParentIsExact<T, E>(s: State<T, E>, f: nat -> Result<T, E>, n: nat, limit: nat)
    requires Inv(s, f, n, limit) && Over(s) && !s.parentCancelled
    ensures s.first.None? <==> forall i: nat :: i < n ==> f(i).Ok?
    ensures s.first.None? ==> forall i: nat :: i < n ==> s.calls[i] == 1 && s.slots[i] == Some(f(i).value)
    ensures s.first.Some? ==> FailsWith(f, n, s.first.value)
  {
    forall i: nat | i < n && s.first.None? ensures s.calls[i] == 1 && f(i).Ok? && s.slots[i] == Some(f(i).value) {
      assert IndexOk(s, f, i);
    }
  }

  /** Step `i` is a call that returns an error. */
  predicate ErrsAt<T, E>(steps: seq<Step<T, E>>, i: nat) {
    i < |steps| && steps[i].Return? && steps[i].outcome.Err?
  }

  /** Among the first `k` steps, the first error returned is `e`. */
  ghost predicate FirstErr<T, E>(steps: seq<Step<T, E>>, k: nat, e: E) {
    exists i: nat :: i < k && ErrsAt(steps, i) && steps[i].outcome.error == e && NoneBefore(steps, i)
  }

  predicate NoneBefore<T, E>(steps: seq<Step<T, E>>, i: nat) {
    forall j: nat :: j < i ==> !ErrsAt(steps, j)
  }

  /** The error kept is the first one any call returned. */
  lemma {:induction false} FirstIsEarliest<T, E>(states: seq<State<T, E>>, steps: seq<Step<T, E>>,
                                                 f: nat -> Result<T, E>, n: nat, limit: nat, k: nat)
    requires IsRun(states, steps, f, n, limit) && k < |states|
    ensures if states[k].first.None? then NoneBefore(steps, k) else FirstErr(steps, k, states[k].first.value)
    decreases k
  {
    if k > 0 {
      FirstIsEarliest(states, steps, f, n, limit, k - 1);
      assert states[k] == Apply(states[k-1], steps[k-1], f, limit);
      if states[k-1].first.None? && ErrsAt(steps, k - 1) {
        assert steps[k-1].outcome.error == states[k].first.value;
      }
    }
  }

  /** Whatever the parent did, a nil return leaves a slot empty exactly where the goroutine
    * gave up its turn. */
  lemma NilMeansFilledUnlessSkipped<T, E>(s: State<T, E>, f: nat -> Result<T, E>, n: nat, limit: nat, i: nat)
    requires Inv(s, f, n, limit) && Over(s) && s.first.None? && i < n
    ensures s.slots[i].None? <==> s.phase[i] == Skipped
    ensures s.phase[i] == Skipped ==> s.parentCancelled
  {
    assert IndexOk(s, f, i);
  }

  lemma RunAppend<T, E>(states: seq<State<T, E>>, steps: seq<Step<T, E>>, f: nat -> Result<T, E>, n: nat, limit: nat,
                        step: Step<T, E>)
    requires IsRun(states, steps, f, n, limit) && Enabled(states[|states|-1], step, f, limit)
    ensures IsRun(states + [Apply(states[|states|-1], step, f, limit)], steps + [step], f, n, limit)
  {
  }

  /** The parent was cancelled before any call, and the first `k` goroutines have given up. */
  function GivenUp<T, E>(n: nat, k: nat): State<T, E> {
    State(seq(n, i => if i < k then Skipped else Waiting), seq(n, _ => None), seq(n, _ => 0), 0, None, false, true)
  }

  lemma GiveUpNext<T, E>(n: nat, k: nat, f: nat -> Result<T, E>, limit: nat)
    requires k < n
    ensures Enabled(GivenUp(n, k), Skip(k), f, limit)
    ensures Apply(GivenUp<T, E>(n, k), Skip(k), f, limit) == GivenUp(n, k + 1)
  {
    assert GivenUp<T, E>(n, k).phase[k := Skipped] == GivenUp<T, E>(n, k + 1).phase;
  }

  lemma {:induction false} RunGivesUp<T, E>(f: nat -> Result<T, E>, n: nat, limit: nat, k: nat)
    returns (states: seq<State<T, E>>, steps: seq<Step<T, E>>)
    requires k <= n
    ensures IsRun(states, steps, f, n, limit) && states[|states|-1] == GivenUp(n, k)
    decreases k
  {
    if k == 0 {
      var s0: State<T, E> := Start(n);
      states, steps := [s0, s0.(parentCancelled := true)], [CancelParent];
      assert s0.phase == GivenUp<T, E>(n, 0).phase;
    } else {
      states, steps := RunGivesUp(f, n, limit, k - 1);
      GiveUpNext(n, k - 1, f, limit);
      RunAppend(states, steps, f, n, limit, Skip(k - 1));
      states, steps := states + [GivenUp(n, k)], steps + [Skip(k - 1)];
    }
  }

  /** For every number of calls and every bound there is a run that returns nil with all slots
    * empty: the parent is cancelled before the first turn. */
  lemma CancelledParentCanReturnNil<T, E>(f: nat -> Result<T, E>, n: nat, limit: nat)
    returns (states: seq<State<T, E>>, steps: seq<Step<T, E>>)
    ensures IsRun(states, steps, f, n, limit) && Over(states[|states|-1]) && states[|states|-1].first.None?
    ensures states[|states|-1].slots == seq(n, _ => None)
  {
    states, steps := RunGivesUp(f, n, limit, n);
  }

  // ---------------------------------------------------------------------------------
  // Progress

  function Left(p: Phase): nat {
    match p
    case Waiting => 3
    case Running => 2
    case Recorded => 1
    case Finished => 0
    case Skipped => 0
  }

  function TotalLeft(phase: seq<Phase>): nat {
    if phase == [] then 0 else TotalLeft(phase[..|phase|-1]) + Left(phase[|phase|-1])
  }

  lemma {:induction false} LeftUpdate(phase: seq<Phase>, i: nat, p: Phase)
    requires i < |phase|
    ensures TotalLeft(phase[i := p]) + Left(phase[i]) == TotalLeft(phase) + Left(p)
  {
    var last := |phase| - 1;
    if i < last {
      LeftUpdate(phase[..last], i, p);
      assert phase[i := p][..last] == phase[..last][i := p];
    } else {
      assert phase[i := p][..last] == phase[..last];
    }
  }

  /** Every goroutine step brings the return nearer. */
  lemma StepsDecrease<T, E>(s: State<T, E>, step: Step<T, E>, f: nat -> Result<T, E>, limit: nat)
    requires Enabled(s, step, f, limit) && !step.CancelParent?
    ensures TotalLeft(Apply(s, step, f, limit).phase) < TotalLeft(s.phase)
  {
    LeftUpdate(s.phase, step.i, Apply(s, step, f, limit).phase[step.i]);
  }

  /** Until the return some goroutine can always move. */
  lemma NeverStuck<T, E>(s: State<T, E>, f: nat -> Result<T, E>, n: nat, limit: nat) returns (step: Step<T, E>)
    requires Inv(s, f, n, limit) && !Over(s) && limit >= 1
    ensures !step.CancelParent? && Enabled(s, step, f, limit)
  {
    CountWitness(s.phase);
    if i :| 0 <= i < n && s.phase[i] == Running {
      step := Return(i, f(i));
    } else if i :| 0 <= i < n && s.phase[i] == Recorded {
      step := Release(i);
    } else {
      var i :| 0 <= i < n && s.phase[i] != Finished && s.phase[i] != Skipped;
      step := Acquire(i);
    }
  }
}
