/** s2's conflict queues: which components they take, in what order, and which they lose.
  *
  * Components are indexed by their place in the component list.  `order` is the order in
  * which the map range happens to visit the shared ids.
  */
module ConflictQueues {
  import opened StableOrder
  import opened Clustering
  import opened Conflicts
  import opened Wrappers

  /** The entries of `list` not yet used, each once, in order. */
  function Unused(list: seq<nat>, used: set<nat>): (r: seq<nat>)
    ensures forall k :: 0 <= k < |r| ==> r[k] in list && r[k] !in used
  {
    if list == [] then []
    else if list[0] in used then Unused(list[1..], used)
    else [list[0]] + Unused(list[1..], used + {list[0]})
  }

  function AsSet(s: seq<nat>): set<nat> {
    set x | x in s
  }

  /** The components used before the `k`-th shared id is reached. */
  function Used<V>(comps: seq<Component<V>>, order: seq<string>, k: nat): set<nat>
    requires k <= |order|
    decreases k, 0
  {
    if k == 0 then {} else Used(comps, order, k - 1) + AsSet(Queue(comps, order, k - 1))
  }

  /** The components the `k`-th id pulls out of the plain list. */
  function Queue<V>(comps: seq<Component<V>>, order: seq<string>, k: nat): (r: seq<nat>)
    requires k < |order|
    ensures forall j :: 0 <= j < |r| ==>
      r[j] < |comps| && r[j] !in Used(comps, order, k) && Lists(comps[r[j]], order[k])
    decreases k, 1
  {
    var list := Sharers(comps, order[k], |comps|);
    if |list| < 2 then [] else Unused(list, Used(comps, order, k))
  }

  /** The vector of the shared point, as the scan over its listings leaves it. */
  function LastVec<V>(h: seq<Hist<V>>, id: string, before: Option<V>): (r: Option<V>)
    ensures before.Some? || id in Ids(h) ==> r.Some?
  {
    if h == [] then before
    else if h[|h|-1].id == id then Some(h[|h|-1].vec)
    else
      assert Ids(h) == Ids(h[..|h|-1]) + [h[|h|-1].id];
      LastVec(h[..|h|-1], id, before)
  }

  function SharedVec<V>(comps: seq<Component<V>>, list: seq<nat>, id: string): (r: Option<V>)
    requires forall k :: 0 <= k < |list| ==> list[k] < |comps| && Lists(comps[list[k]], id)
    ensures list != [] ==> r.Some?
  {
    if list == [] then None
    else
      var last := list[|list|-1];
      assert Lists(comps[last], id);
      LastVec(comps[last].hist, id, SharedVec(comps, list[..|list|-1], id))
  }

  /** Entry `i` is the last of `h` with the given id, and `w` is its vector. */
  predicate LastAt<V(==)>(h: seq<Hist<V>>, id: string, w: V, i: nat) {
    i < |h| && h[i] == Hist(id, w) && forall j :: i < j < |h| ==> h[j].id != id
  }

  ghost predicate IsLastVec<V>(h: seq<Hist<V>>, id: string, w: V) {
    exists i: nat :: LastAt(h, id, w, i)
  }

  lemma {:induction false} LastVecIs<V>(h: seq<Hist<V>>, id: string, before: Option<V>)
    requires id in Ids(h)
    ensures LastVec(h, id, before).Some? && IsLastVec(h, id, LastVec(h, id, before).value)
  {
    var n := |h| - 1;
    if h[n].id == id {
      assert LastAt(h, id, h[n].vec, n);
    } else {
      assert Ids(h) == Ids(h[..n]) + [h[n].id];
      LastVecIs(h[..n], id, before);
      var w := LastVec(h[..n], id, before).value;
      var i: nat :| LastAt(h[..n], id, w, i);
      assert LastAt(h, id, w, i);
    }
  }

  /** The scan over the listings ends with the vector of the shared point: the one its last
    * listing carries. */
  lemma SharedVecIs<V>(comps: seq<Component<V>>, list: seq<nat>, id: string)
    requires list != [] && forall k :: 0 <= k < |list| ==> list[k] < |comps| && Lists(comps[list[k]], id)
    ensures SharedVec(comps, list, id).Some?
    ensures IsLastVec(comps[list[|list|-1]].hist, id, SharedVec(comps, list, id).value)
  {
    LastVecIs(comps[list[|list|-1]].hist, id, SharedVec(comps, list[..|list|-1], id));
  }

  /** The `k`-th id's queue in adjudication order. */
  function Sorted<V>(comps: seq<Component<V>>, order: seq<string>, k: nat,
                     cosine: (V, V) -> real): (r: seq<Component<V>>)
    requires k < |order|
    ensures |r| == |Queue(comps, order, k)|
  {
    var q, list := Queue(comps, order, k), Sharers(comps, order[k], |comps|);
    if q == [] then []
    else Sort(At(comps, q), Rank(SharedVec(comps, list, order[k]).value, cosine))
  }

  function QueuesOf<V>(comps: seq<Component<V>>, order: seq<string>, k: nat,
                       cosine: (V, V) -> real): seq<seq<Component<V>>>
    requires k <= |order|
  {
    if k == 0 then []
    else
      var taken := if |Queue(comps, order, k - 1)| >= 2 then [Sorted(comps, order, k - 1, cosine)] else [];
      QueuesOf(comps, order, k - 1, cosine) + taken
  }

  /** The components below `m` left in the plain list. */
  function PlainOf<V>(comps: seq<Component<V>>, used: set<nat>, m: nat): seq<Component<V>>
    requires m <= |comps|
  {
    if m == 0 then []
    else PlainOf(comps, used, m - 1) + if m - 1 in used then [] else [comps[m-1]]
  }

  function Marked(used: seq<bool>): set<nat> {
    set i: nat | i < |used| && used[i]
  }

  lemma MarkOne(used: seq<bool>, ci: nat)
    requires ci < |used|
    ensures Marked(used[ci := true]) == Marked(used) + {ci}
  {
  }

  method TakeUnused(list: seq<nat>, used: array<bool>) returns (queue: seq<nat>)
    requires forall k :: 0 <= k < |list| ==> list[k] < used.Length
    modifies used
    ensures queue == Unused(list, Marked(old(used[..])))
    ensures Marked(used[..]) == Marked(old(used[..])) + AsSet(queue)
  {
    queue := [];
    ghost var was := Marked(used[..]);
    ghost var now := was;
    var k := 0;
    assert list[0..] == list;
    while k < |list|
      invariant 0 <= k <= |list|
      invariant Marked(used[..]) == now
      invariant Unused(list, was) == queue + Unused(list[k..], now)
      invariant now == was + AsSet(queue)
    {
      var ci := list[k];
      assert list[k..][0] == ci && list[k..][1..] == list[k+1..];
      k := k + 1;
      if used[ci] {
        assert ci in now;
        continue;
      }
      MarkOne(used[..], ci);
      ghost var before := used[..];
      used[ci] := true;
      assert used[..] == before[ci := true];
      now := now + {ci};
      assert queue + ([ci] + Unused(list[k..], now)) == (queue + [ci]) + Unused(list[k..], now);
      queue := queue + [ci];
    }
    assert list[k..] == [];
  }

  method OrderQueue<V>(comps: seq<Component<V>>, queue: seq<nat>, shared: V, cosine: (V, V) -> real)
    returns (r: seq<Component<V>>)
    requires forall k :: 0 <= k < |queue| ==> queue[k] < |comps|
    ensures r == Sort(At(comps, queue), Rank(shared, cosine))
  {
    var items := At(comps, queue);
    var a := new Component<V>[|items|](i requires 0 <= i < |items| => items[i]);
    assert a[..] == items;
    SortConflictQueue(a, shared, cosine);
    r := a[..];
  }

  method FindShared<V>(comps: seq<Component<V>>, list: seq<nat>, id: string) returns (shared: Option<V>)
    requires forall k :: 0 <= k < |list| ==> list[k] < |comps| && Lists(comps[list[k]], id)
    ensures shared.Some? <==> list != []
    ensures list != [] ==> IsLastVec(comps[list[|list|-1]].hist, id, shared.value)
    ensures shared == SharedVec(comps, list, id)
  {
    shared := None;
    var k := 0;
    while k < |list|
      invariant 0 <= k <= |list|
      invariant shared == SharedVec(comps, list[..k], id)
    {
      var h := comps[list[k]].hist;
      ghost var before := shared;
      var j := 0;
      while j < |h|
        invariant 0 <= j <= |h|
        invariant shared == LastVec(h[..j], id, before)
      {
        assert h[..j+1][..j] == h[..j];
        if h[j].id == id { shared := Some(h[j].vec); }
        j := j + 1;
      }
      assert h[..j] == h && list[..k+1][..k] == list[..k];
      k := k + 1;
    }
    assert list[..k] == list;
    if list != [] { SharedVecIs(comps, list, id); }
  }

  ghost predicate Enumerates(order: seq<string>, keys: set<string>) {
    && (forall i, j :: 0 <= i < j < |order| ==> order[i] != order[j])
    && (forall id :: id in order <==> id in keys)
  }

  /** One step of the range over shared ids. */
  method VisitId<V>(comps: seq<Component<V>>, index: Index, ghost order: seq<string>, ghost k: nat, id: string,
                    used: array<bool>, cosine: (V, V) -> real)
    returns (taken: seq<seq<Component<V>>>)
    requires forall id :: ListFor(index, id) == Sharers(comps, id, |comps|)
    requires k < |order| && order[k] == id && id in index
    requires used.Length == |comps| && Marked(used[..]) == Used(comps, order, k)
    modifies used
    ensures Marked(used[..]) == Used(comps, order, k + 1)
    ensures taken == if |Queue(comps, order, k)| >= 2 then [Sorted(comps, order, k, cosine)] else []
  {
    var list := index[id];
    assert list == ListFor(index, id);
    taken := [];
    if |list| >= 2 {
      var shared := FindShared(comps, list, id);
      var queue := TakeUnused(list, used);
      assert queue == Queue(comps, order, k);
      if |queue| >= 2 {
        var sorted := OrderQueue(comps, queue, shared.value, cosine);
        taken := [sorted];
      }
    }
  }

  /** The range over shared ids: every queue, and the flags of the components pulled out. */
  method PullQueues<V>(comps: seq<Component<V>>, index: Index, order: seq<string>, cosine: (V, V) -> real)
    returns (used: array<bool>, conflicts: seq<seq<Component<V>>>)
    requires forall id :: ListFor(index, id) == Sharers(comps, id, |comps|)
    requires forall k :: 0 <= k < |order| ==> order[k] in index
    ensures conflicts == QueuesOf(comps, order, |order|, cosine)
    ensures used.Length == |comps| && Marked(used[..]) == Used(comps, order, |order|)
  {
    used := new bool[|comps|](i => false);
    conflicts := [];
    var k := 0;
    while k < |order|
      invariant 0 <= k <= |order| && fresh(used) && used.Length == |comps|
      invariant Marked(used[..]) == Used(comps, order, k)
      invariant conflicts == QueuesOf(comps, order, k, cosine)
    {
      var taken := VisitId(comps, index, order, k, order[k], used, cosine);
      conflicts := conflicts + taken;
      k := k + 1;
    }
  }

  /** Pulls the components that compete for a historical point out of the plain list. */
  method ResolveConflicts<V>(comps: seq<Component<V>>, index: Index, order: seq<string>, cosine: (V, V) -> real)
    returns (plain: seq<Component<V>>, conflicts: seq<seq<Component<V>>>)
    requires forall id :: ListFor(index, id) == Sharers(comps, id, |comps|)
    requires forall k :: 0 <= k < |order| ==> order[k] in index
    ensures conflicts == QueuesOf(comps, order, |order|, cosine)
    ensures plain == PlainOf(comps, Used(comps, order, |order|), |comps|)
  {
    var used;
    used, conflicts := PullQueues(comps, index, order, cosine);
    plain := CollectPlain(comps, used);
  }

  method CollectPlain<V>(comps: seq<Component<V>>, used: array<bool>) returns (plain: seq<Component<V>>)
    requires used.Length == |comps|
    ensures plain == PlainOf(comps, Marked(used[..]), |comps|)
  {
    plain := [];
    var ci := 0;
    while ci < |comps|
      invariant 0 <= ci <= |comps|
      invariant plain == PlainOf(comps, Marked(used[..]), ci)
    {
      assert used[ci] <==> ci in Marked(used[..]);
      if !used[ci] { plain := plain + [comps[ci]]; }
      ci := ci + 1;
    }
  }
}
