/** The edge and dead-link tables of one agent, as maps by primary key. */
module EdgeTable {
  import opened Graph

  datatype Key = Key(source: Id, target: Id, kind: Kind)
  datatype Row = Row(weight: real, createdAt: nat)
  type Edges = map<Key, Row>

  datatype Dead = Dead(source: Id, target: Id)
  type Pending = map<Dead, nat>

  /** An upsert keeps the creation time of a row that exists and replaces its weight. */
  function Upsert(edges: Edges, k: Key, weight: real, now: nat): Edges {
    edges[k := if k in edges then edges[k].(weight := weight) else Row(weight, now)]
  }

  function Reverse(k: Key): Key {
    Key(k.target, k.source, k.kind)
  }

  function KeyOf(e: Edge): Key {
    Key(e.source, e.target, e.kind)
  }

  /** One edge of a batch; a contradiction is written both ways. */
  function AddPair(edges: Edges, e: Edge, now: nat): Edges {
    var one := Upsert(edges, KeyOf(e), e.weight, now);
    if e.kind == Contradicts then Upsert(one, Reverse(KeyOf(e)), e.weight, now) else one
  }

  function AddPairs(edges: Edges, batch: seq<Edge>, now: nat): Edges {
    if batch == [] then edges else AddPair(AddPairs(edges, batch[..|batch|-1], now), batch[|batch|-1], now)
  }

  /** The edge is written to the row: as its own, or as its reverse for a contradiction. */
  predicate Writes(e: Edge, k: Key) {
    || (e.source == k.source && e.target == k.target && e.kind == k.kind)
    || (e.kind == Contradicts && k.kind == Contradicts && e.source == k.target && e.target == k.source)
  }

  /** Edge `i` is the last of the batch that is written to the row. */
  predicate LastWrite(batch: seq<Edge>, k: Key, i: nat) {
    i < |batch| && Writes(batch[i], k) && forall j :: i < j < |batch| ==> !Writes(batch[j], k)
  }

  ghost predicate Written(batch: seq<Edge>, k: Key) {
    exists i: nat :: i < |batch| && Writes(batch[i], k)
  }

  lemma AddPairIs(edges: Edges, e: Edge, now: nat, k: Key)
    ensures var t := AddPair(edges, e, now);
      && (k in t <==> k in edges || Writes(e, k))
      && (k in edges ==> t[k].createdAt == edges[k].createdAt)
      && (k in t && k !in edges ==> t[k].createdAt == now)
      && (k in t ==> t[k].weight == if Writes(e, k) then e.weight else edges[k].weight)
  {
  }

  /** After a batch the rows are those before and those written; a row written has the weight of
    * the last edge written to it, and keeps its creation time if it was there. */
  lemma {:induction false} AddPairsAre(edges: Edges, batch: seq<Edge>, now: nat, k: Key)
    ensures var t := AddPairs(edges, batch, now);
      && (k in t <==> k in edges || Written(batch, k))
      && (k in edges ==> t[k].createdAt == edges[k].createdAt)
      && (k in t && k !in edges ==> t[k].createdAt == now)
      && (k in edges && !Written(batch, k) ==> t[k].weight == edges[k].weight)
      && (k in t ==> forall i: nat :: LastWrite(batch, k, i) ==> t[k].weight == batch[i].weight)
  {
    if batch != [] {
      var front, e := batch[..|batch|-1], batch[|batch|-1];
      AddPairsAre(edges, front, now, k);
      AddPairIs(AddPairs(edges, front, now), e, now, k);
      assert Written(batch, k) <==> Written(front, k) || Writes(e, k) by {
        if i: nat :| i < |front| && Writes(front[i], k) { assert batch[i] == front[i]; }
        if i: nat :| i < |batch| && Writes(batch[i], k) { assert i == |front| || front[i] == batch[i]; }
      }
      forall i: nat | LastWrite(batch, k, i) && i < |front| ensures LastWrite(front, k, i) && !Writes(e, k) {
        assert forall j :: 0 <= j < |front| ==> front[j] == batch[j];
        assert !Writes(batch[|front|], k);
      }
    }
  }

  /** Only the rows leaving `source` go. */
  function DeleteFor(edges: Edges, source: Id): Edges {
    map k | k in edges && k.source != source :: edges[k]
  }

  // ---------------------------------------------------------------------------------
  // Contradictions

  /** Contradictions present both ways carry the same weight. */
  ghost predicate EvenlyWeighted(edges: Edges) {
    forall k :: k in edges && k.kind == Contradicts && Reverse(k) in edges ==>
      edges[Reverse(k)].weight == edges[k].weight
  }

  /** A contradiction without its reverse points at a source whose edges were deleted. */
  ghost predicate OneWayOnlyInto(edges: Edges, deleted: set<Id>) {
    forall k :: k in edges && k.kind == Contradicts && Reverse(k) !in edges ==> k.target in deleted
  }

  ghost predicate Symmetric(edges: Edges) {
    forall k :: k in edges && k.kind == Contradicts ==> Reverse(k) in edges
  }

  lemma AddPairKeeps(edges: Edges, e: Edge, now: nat, deleted: set<Id>)
    requires EvenlyWeighted(edges) && OneWayOnlyInto(edges, deleted)
    ensures EvenlyWeighted(AddPair(edges, e, now)) && OneWayOnlyInto(AddPair(edges, e, now), deleted)
  {
    var after := AddPair(edges, e, now);
    forall k | k in after && k.kind == Contradicts && Reverse(k) in after
      ensures after[Reverse(k)].weight == after[k].weight
    {
      assert Reverse(Reverse(k)) == k;
      if k != KeyOf(e) && Reverse(k) != KeyOf(e) { assert k in edges && Reverse(k) in edges; }
    }
    forall k | k in after && k.kind == Contradicts && Reverse(k) !in after ensures k.target in deleted {
      assert Reverse(Reverse(k)) == k;
    }
  }

  lemma {:induction false} AddPairsKeeps(edges: Edges, batch: seq<Edge>, now: nat, deleted: set<Id>)
    requires EvenlyWeighted(edges) && OneWayOnlyInto(edges, deleted)
    ensures EvenlyWeighted(AddPairs(edges, batch, now)) && OneWayOnlyInto(AddPairs(edges, batch, now), deleted)
  {
    if batch != [] {
      AddPairsKeeps(edges, batch[..|batch|-1], now, deleted);
      AddPairKeeps(AddPairs(edges, batch[..|batch|-1], now), batch[|batch|-1], now, deleted);
    }
  }

  lemma DeleteForKeeps(edges: Edges, source: Id, deleted: set<Id>)
    requires EvenlyWeighted(edges) && OneWayOnlyInto(edges, deleted)
    ensures EvenlyWeighted(DeleteFor(edges, source)) && OneWayOnlyInto(DeleteFor(edges, source), deleted + {source})
  {
    var after := DeleteFor(edges, source);
    forall k | k in after && k.kind == Contradicts && Reverse(k) in after
      ensures after[Reverse(k)].weight == after[k].weight
    {
      assert k in edges && Reverse(k) in edges;
    }
  }

  datatype Op = Add(batch: seq<Edge>, now: nat) | Delete(source: Id)

  function Run(ops: seq<Op>): Edges {
    if ops == [] then map[]
    else match ops[|ops|-1]
      case Add(batch, now) => AddPairs(Run(ops[..|ops|-1]), batch, now)
      case Delete(source) => DeleteFor(Run(ops[..|ops|-1]), source)
  }

  ghost function Deleted(ops: seq<Op>): set<Id> {
    set op | op in ops && op.Delete? :: op.source
  }

  /** Over every run of batches and deletions: two-way contradictions agree on their weight,
    * and a one-way contradiction points at a source that was deleted. */
  lemma {:induction false} RunKeepsPairs(ops: seq<Op>)
    ensures EvenlyWeighted(Run(ops)) && OneWayOnlyInto(Run(ops), Deleted(ops))
  {
    if ops != [] {
      var front, last := ops[..|ops|-1], ops[|ops|-1];
      RunKeepsPairs(front);
      assert ops == front + [last];
      match last
      case Add(batch, now) =>
        AddPairsKeeps(Run(front), batch, now, Deleted(front));
        assert Deleted(ops) == Deleted(front);
      case Delete(source) =>
        DeleteForKeeps(Run(front), source, Deleted(front));
        assert Deleted(ops) == Deleted(front) + {source};
    }
  }

  /** A batch of edges leaves contradictions two-way. */
  lemma AddPairsSymmetric(edges: Edges, batch: seq<Edge>, now: nat)
    requires Symmetric(edges) && EvenlyWeighted(edges)
    ensures Symmetric(AddPairs(edges, batch, now))
  {
    AddPairsKeeps(edges, batch, now, {});
  }

  /** Deleting a source's edges leaves contradictions two-way exactly when nothing else
    * contradicts it. */
  lemma DeleteSymmetricIff(edges: Edges, source: Id)
    requires Symmetric(edges)
    ensures Symmetric(DeleteFor(edges, source)) <==>
      forall a :: Key(a, source, Contradicts) in edges ==> a == source
  {
    var after := DeleteFor(edges, source);
    if a :| Key(a, source, Contradicts) in edges && a != source {
      assert Key(a, source, Contradicts) in after;
      assert Reverse(Key(a, source, Contradicts)) !in after;
    } else {
      forall k | k in after && k.kind == Contradicts ensures Reverse(k) in after {
        assert Reverse(k) in edges && k == Key(k.source, k.target, Contradicts);
      }
    }
  }

  // ---------------------------------------------------------------------------------
  // The store

  class Store {
    var edges: Edges
    var pending: Pending

    constructor ()
      ensures edges == map[] && pending == map[]
    {
      edges, pending := map[], map[];
    }

    /** Writes a batch of edges; the whole batch is one transaction. */
    method AddEdgePairs(batch: seq<Edge>, now: nat)
      modifies `edges
      ensures edges == AddPairs(old(edges), batch, now)
    {
      var i := 0;
      while i < |batch|
        invariant 0 <= i <= |batch| && edges == AddPairs(old(edges), batch[..i], now)
      {
        var e := batch[i];
        assert batch[..i+1][..i] == batch[..i];
        edges := Upsert(edges, KeyOf(e), e.weight, now);
        if e.kind == Contradicts {
          edges := Upsert(edges, Reverse(KeyOf(e)), e.weight, now);
        }
        i := i + 1;
      }
      assert batch[..i] == batch;
    }

    /** Rows into `source` stay, and so does everything between other ids. */
    method DeleteEdgesFor(source: Id)
      modifies `edges
      ensures forall k :: k in edges <==> k in old(edges) && k.source != source
      ensures forall k :: k in edges ==> edges[k] == old(edges)[k]
      ensures edges == DeleteFor(old(edges), source)
    {
      edges := DeleteFor(edges, source);
    }

    method RecordPendingLinks(source: Id, targets: seq<Id>, now: nat)
      modifies `pending
      ensures forall d :: d in pending <==> d in old(pending) || (d.source == source && d.target in targets)
      ensures forall d :: d in pending ==>
        pending[d] == if d.source == source && d.target in targets then now else old(pending)[d]
    {
      var i := 0;
      while i < |targets|
        invariant 0 <= i <= |targets|
        invariant forall d :: d in pending <==> d in old(pending) || (d.source == source && d.target in targets[..i])
        invariant forall d :: d in pending ==>
          pending[d] == if d.source == source && d.target in targets[..i] then now else old(pending)[d]
      {
        assert targets[..i+1] == targets[..i] + [targets[i]];
        pending := pending[Dead(source, targets[i]) := now];
        i := i + 1;
      }
      assert targets[..i] == targets;
    }

    method ClearPendingLinks(source: Id, targets: seq<Id>)
      modifies `pending
      ensures pending == map d | d in old(pending) && !(d.source == source && d.target in targets) :: old(pending)[d]
    {
      var i := 0;
      while i < |targets|
        invariant 0 <= i <= |targets|
        invariant pending == map d | d in old(pending) && !(d.source == source && d.target in targets[..i]) ::
          old(pending)[d]
      {
        assert targets[..i+1] == targets[..i] + [targets[i]];
        pending := pending - {Dead(source, targets[i])};
        i := i + 1;
      }
      assert targets[..i] == targets;
    }

    method DeletePendingLinksFor(source: Id)
      modifies `pending
      ensures forall d :: d in pending <==> d in old(pending) && d.source != source
      ensures forall d :: d in pending ==> pending[d] == old(pending)[d]
      ensures pending == map d | d in old(pending) && d.source != source :: old(pending)[d]
    {
      pending := map d | d in pending && d.source != source :: pending[d];
    }
  }
}
