/** The worker's in-memory job table and its critical sections.
  *
  * Every method below is one section the source runs under the mutex.  The pure functions
  * beside them are the same updates on values; the protocol in `WorkerProtocol` is built
  * from those.
  */
module JobTable {
  import opened StableOrder
  import opened Wrappers

  type JobId = string
  type Agent = string

  datatype Status = Queued | Running | Done | Failed {
    predicate Terminal() { Done? || Failed? }
  }

  datatype Job = Job(agent: Agent, session: string, status: Status, error: string, createdAt: nat, doneAt: Option<nat>)

  /** One unit of work as it travels through an agent's queue. */
  datatype Item = Item(job: JobId, agent: Agent, session: string)

  type Table = map<JobId, Job>

  const MAX_JOBS: nat := 1000
  const QUEUE_CAPACITY: nat := 64

  predicate Evictable(j: Job) {
    j.status.Terminal() && j.doneAt.Some?
  }

  function Terminals(jobs: Table): set<JobId> {
    set id | id in jobs && Evictable(jobs[id])
  }

  function Min(a: int, b: int): int {
    if a < b then a else b
  }

  /** How many of `finished` jobs the bound asks to go. */
  function Excess(jobs: Table, finished: nat): nat {
    if |jobs| > MAX_JOBS then Min(|jobs| - MAX_JOBS, finished) else 0
  }

  /** What pruning may remove: only finished jobs, the oldest of them, and exactly as many
    * as the bound asks for or as there are. */
  ghost predicate LegalEviction(jobs: Table, evicted: set<JobId>) {
    && evicted <= Terminals(jobs)
    && |evicted| == Excess(jobs, |Terminals(jobs)|)
    && forall e, r :: e in evicted && r in Terminals(jobs) - evicted ==> jobs[e].doneAt.value <= jobs[r].doneAt.value
  }

  lemma RemovedTerminals(jobs: Table, evicted: set<JobId>)
    ensures Terminals(jobs - evicted) == Terminals(jobs) - evicted
  {
  }

  lemma RemovedSize(jobs: Table, evicted: set<JobId>)
    requires evicted <= jobs.Keys
    ensures |jobs - evicted| == |jobs| - |evicted|
  {
    assert (jobs - evicted).Keys == jobs.Keys - evicted;
    assert |jobs.Keys - evicted| == |jobs| - |evicted|;
  }

  /** After pruning the table is within its bound or holds no finished job, and pruning stops at
    * the bound. */
  lemma PruneBound(jobs: Table, evicted: set<JobId>)
    requires LegalEviction(jobs, evicted)
    ensures |jobs - evicted| <= MAX_JOBS || Terminals(jobs - evicted) == {}
    ensures evicted != {} ==> |jobs - evicted| >= MAX_JOBS
    ensures Terminals(jobs - evicted) == Terminals(jobs) - evicted
  {
    RemovedSize(jobs, evicted);
    RemovedTerminals(jobs, evicted);
    if |jobs - evicted| > MAX_JOBS {
      assert |Terminals(jobs) - evicted| == 0;
    }
  }

  function NewJob(agent: Agent, session: string, now: nat): Job {
    Job(agent, session, Queued, "", now, None)
  }

  function WithStatus(jobs: Table, id: JobId, status: Status, error: string, now: nat): Table {
    if id !in jobs then jobs
    else
      var at := if status.Terminal() then Some(now) else None;
      jobs[id := jobs[id].(status := status, error := error, doneAt := at)]
  }

  function WithQueue(queues: map<Agent, seq<Item>>, agent: Agent): map<Agent, seq<Item>> {
    if agent in queues then queues else queues[agent := []]
  }

  // ---------------------------------------------------------------------------------
  // Sorting the finished jobs by completion time

  datatype Term = Term(id: JobId, at: nat)

  function Oldness(t: Term): real {
    -(t.at as real)
  }

  lemma {:induction false} InsertPermutes(t: seq<Term>, x: Term, key: Term -> real)
    ensures multiset(InsertLast(t, x, key)) == multiset(t) + multiset{x}
  {
    if |t| != 0 && key(t[|t|-1]) < key(x) {
      InsertPermutes(t[..|t|-1], x, key);
      assert t == t[..|t|-1] + [t[|t|-1]];
    }
  }

  lemma {:induction false} SortPermutes(s: seq<Term>, key: Term -> real)
    ensures multiset(Sort(s, key)) == multiset(s)
  {
    if s != [] {
      SortPermutes(s[..|s|-1], key);
      InsertPermutes(Sort(s[..|s|-1], key), s[|s|-1], key);
      assert s == s[..|s|-1] + [s[|s|-1]];
    }
  }

  ghost predicate DistinctIds(s: seq<Term>) {
    forall i, j :: 0 <= i < j < |s| ==> s[i].id != s[j].id
  }

  ghost predicate TermsOf(s: seq<Term>, jobs: Table, ids: set<JobId>) {
    && DistinctIds(s)
    && (forall i :: 0 <= i < |s| ==>
      s[i].id in ids && s[i].id in Terminals(jobs) && jobs[s[i].id].doneAt == Some(s[i].at))
    && (forall id :: id in ids && id in Terminals(jobs) ==> Term(id, jobs[id].doneAt.value) in s)
  }

  /** The finished jobs, oldest first. */
  ghost predicate Aged(s: seq<Term>) {
    forall i, j :: 0 <= i < j < |s| ==> s[i].at <= s[j].at
  }

  lemma Resorted(s: seq<Term>, t: seq<Term>, jobs: Table, ids: set<JobId>)
    requires TermsOf(s, jobs, ids) && multiset(t) == multiset(s)
    ensures TermsOf(t, jobs, ids)
  {
    forall x | x in t ensures x in s { assert x in multiset(t); }
    forall i | 0 <= i < |t|
      ensures t[i].id in ids && t[i].id in Terminals(jobs) && jobs[t[i].id].doneAt == Some(t[i].at)
    {
      assert t[i] in s;
    }
    forall x | x in s ensures x in t { assert x in multiset(s); }
    forall i, j | 0 <= i < j < |t| ensures t[i].id != t[j].id {
      if t[i].id == t[j].id {
        assert t[i] in s && t[j] in s;
        assert t[i] == t[j];
        TwiceIn(t, i, j);
        OnceIn(s, t[i]);
      }
    }
  }

  lemma TwiceIn(t: seq<Term>, i: nat, j: nat)
    requires i < j < |t| && t[i] == t[j]
    ensures multiset(t)[t[i]] >= 2
  {
    assert t == t[..j] + t[j..];
    assert t[i] in t[..j] && t[j] in t[j..];
  }

  lemma {:induction false} OnceIn(s: seq<Term>, x: Term)
    requires DistinctIds(s)
    ensures multiset(s)[x] <= 1
  {
    if s != [] {
      OnceIn(s[..|s|-1], x);
      assert s == s[..|s|-1] + [s[|s|-1]];
      if s[|s|-1] == x { assert x !in s[..|s|-1]; }
    }
  }

  lemma OldestFirst(terms: seq<Term>, jobs: Table)
    requires TermsOf(terms, jobs, jobs.Keys)
    ensures TermsOf(Sort(terms, Oldness), jobs, jobs.Keys) && Aged(Sort(terms, Oldness))
  {
    var t := Sort(terms, Oldness);
    SortIsStable(terms, Oldness);
    SortPermutes(terms, Oldness);
    Resorted(terms, t, jobs, jobs.Keys);
    forall i, j | 0 <= i < j < |t| ensures t[i].at <= t[j].at {
      assert Oldness(t[i]) >= Oldness(t[j]);
    }
  }

  ghost function IdsOf(s: seq<Term>): set<JobId> {
    set i | 0 <= i < |s| :: s[i].id
  }

  lemma IdsGrow(s: seq<Term>, i: nat)
    requires i < |s|
    ensures IdsOf(s[..i+1]) == IdsOf(s[..i]) + {s[i].id}
  {
    assert s[..i+1] == s[..i] + [s[i]];
    forall k | 0 <= k < i ensures s[k].id in IdsOf(s[..i+1]) { assert s[..i+1][k].id == s[k].id; }
    assert s[..i+1][i].id == s[i].id;
  }

  lemma {:induction false} IdsSize(s: seq<Term>)
    requires DistinctIds(s)
    ensures |IdsOf(s)| == |s|
  {
    if s != [] {
      var front := s[..|s|-1];
      IdsSize(front);
      assert IdsOf(s) == IdsOf(front) + {s[|s|-1].id};
      assert s[|s|-1].id !in IdsOf(front);
    }
  }

  lemma OldestAreLegal(jobs: Table, s: seq<Term>, c: nat)
    requires TermsOf(s, jobs, jobs.Keys) && Aged(s)
    requires c == Excess(jobs, |s|)
    ensures LegalEviction(jobs, IdsOf(s[..c]))
  {
    IdsSize(s);
    IdsSize(s[..c]);
    assert IdsOf(s) == Terminals(jobs) by {
      forall id | id in Terminals(jobs) ensures id in IdsOf(s) {
        assert Term(id, jobs[id].doneAt.value) in s;
      }
    }
    forall k | 0 <= k < c ensures s[k].id in IdsOf(s[..c]) { assert s[..c][k].id == s[k].id; }
    forall e, r | e in IdsOf(s[..c]) && r in Terminals(jobs) - IdsOf(s[..c])
      ensures jobs[e].doneAt.value <= jobs[r].doneAt.value
    {
      var i :| 0 <= i < c && s[..c][i].id == e;
      assert r in IdsOf(s);
      var j :| 0 <= j < |s| && s[j].id == r;
    }
  }

  lemma SortedEvictionLegal(terms: seq<Term>, jobs: Table)
    requires TermsOf(terms, jobs, jobs.Keys) && |jobs| > MAX_JOBS
    ensures LegalEviction(jobs, IdsOf(Sort(terms, Oldness)[..Min(|jobs| - MAX_JOBS, |terms|)]))
  {
    OldestFirst(terms, jobs);
    OldestAreLegal(jobs, Sort(terms, Oldness), Excess(jobs, |terms|));
  }

  // ---------------------------------------------------------------------------------
  // The critical sections

  class Worker {
    var jobs: Table
    var queues: map<Agent, seq<Item>>
    var closed: bool

    constructor ()
      ensures jobs == map[] && queues == map[] && !closed
    {
      jobs, queues, closed := map[], map[], false;
    }

    /** The finished jobs with their completion times, in the map range's order. */
    method CollectTerminals() returns (terms: seq<Term>)
      ensures TermsOf(terms, jobs, jobs.Keys)
    {
      terms := [];
      var rest := jobs.Keys;
      while rest != {}
        invariant rest <= jobs.Keys && TermsOf(terms, jobs, jobs.Keys - rest)
        decreases rest
      {
        var id :| id in rest;
        var j := jobs[id];
        if (j.status == Done || j.status == Failed) && j.doneAt.Some? {
          terms := terms + [Term(id, j.doneAt.value)];
        }
        rest := rest - {id};
      }
      assert jobs.Keys - rest == jobs.Keys;
    }

    /** Evicts the oldest finished jobs until the table is back within its bound. */
    method PruneLocked() returns (ghost evicted: set<JobId>)
      requires |jobs| > MAX_JOBS
      modifies `jobs
      ensures LegalEviction(old(jobs), evicted) && jobs == old(jobs) - evicted
    {
      var terms := OldestTerminals();
      evicted := DeleteOldest(terms, |jobs| - MAX_JOBS);
    }

    method OldestTerminals() returns (terms: seq<Term>)
      requires |jobs| > MAX_JOBS
      ensures LegalEviction(jobs, IdsOf(terms[..Min(|jobs| - MAX_JOBS, |terms|)]))
    {
      var found := CollectTerminals();
      SortedEvictionLegal(found, jobs);
      terms := Sort(found, Oldness);
    }

    method DeleteOldest(terms: seq<Term>, excess: nat) returns (ghost evicted: set<JobId>)
      modifies `jobs
      ensures evicted == IdsOf(terms[..Min(excess, |terms|)]) && jobs == old(jobs) - evicted
    {
      ghost var was := jobs;
      var i := 0;
      assert was - IdsOf(terms[..0]) == was;
      while i < excess && i < |terms|
        invariant 0 <= i <= |terms| && i <= excess
        invariant jobs == was - IdsOf(terms[..i])
      {
        IdsGrow(terms, i);
        assert was - IdsOf(terms[..i]) - {terms[i].id} == was - IdsOf(terms[..i+1]);
        jobs := jobs - {terms[i].id};
        i := i + 1;
      }
      evicted := IdsOf(terms[..i]);
    }

    /** Enqueue's first section: the new job goes into the table and the table is pruned. */
    method Register(id: JobId, agent: Agent, session: string, now: nat) returns (ghost evicted: set<JobId>)
      requires id !in jobs
      modifies `jobs
      ensures LegalEviction(old(jobs)[id := NewJob(agent, session, now)], evicted)
      ensures jobs == old(jobs)[id := NewJob(agent, session, now)] - evicted
    {
      jobs := jobs[id := NewJob(agent, session, now)];
      evicted := {};
      if |jobs| > MAX_JOBS {
        evicted := PruneLocked();
      } else {
        assert jobs - {} == jobs;
      }
    }

    /** Enqueue's second section: refuse when closed, else find or create the agent's queue. */
    method OpenQueue(agent: Agent) returns (open: bool, spawn: bool)
      modifies `queues
      ensures open == !closed && spawn == (open && agent !in old(queues))
      ensures queues == if open then WithQueue(old(queues), agent) else old(queues)
    {
      if closed {
        return false, false;
      }
      open, spawn := true, agent !in queues;
      if spawn {
        queues := queues[agent := []];
      }
    }

    method SetStatus(id: JobId, status: Status, error: string, now: nat)
      modifies `jobs
      ensures jobs == WithStatus(old(jobs), id, status, error, now)
    {
      if id !in jobs {
        return;
      }
      var j := jobs[id];
      j := j.(status := status, error := error);
      if status == Done || status == Failed {
        j := j.(doneAt := Some(now));
      } else {
        j := j.(doneAt := None);
      }
      jobs := jobs[id := j];
    }

    method GetJob(id: JobId) returns (j: Option<Job>)
      ensures j.Some? <==> id in jobs
      ensures id in jobs ==> j.value == jobs[id]
    {
      if id !in jobs {
        return None;
      }
      j := Some(jobs[id]);
    }

    method Close()
      modifies `closed
      ensures closed
    {
      if closed {
        return;
      }
      closed := true;
    }
  }
}
