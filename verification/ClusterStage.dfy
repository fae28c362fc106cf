/** Pipeline stage s2 as a whole: components, isolated points and conflict queues. */
module ClusterStage {
  import opened UnionFind
  import opened StableOrder
  import opened Clustering
  import opened Conflicts
  import opened ConflictQueues
  import opened ConflictTheorems
  import opened Placement
  import opened Selection
  import opened Wrappers

  datatype Result<V> =
    | Clustered(components: seq<Component<V>>, isolated: seq<nat>, conflicts: seq<seq<Component<V>>>)
    | SearchFailed

  /** What a run saw on the way: the current-point classes, each point's historical matches,
    * the components before conflicts are pulled out, and the map range's order. */
  datatype Trace<V> = Trace(groups: seq<seq<nat>>, hist: seq<seq<Hist<V>>>, comps: seq<Component<V>>,
                            order: seq<string>)

  function Default(given: real, fallback: real): (r: real)
    ensures r == if given > 0.0 then given else fallback
  {
    if given <= 0.0 then fallback else given
  }

  function MatchesFor<V>(v: V, answer: Option<seq<Hit>>, fetch: string -> Fetch<V>, cosine: (V, V) -> real,
                         histSim: real)
    : Option<seq<Hist<V>>>
  {
    if answer.None? then None else Matches(v, answer.value, fetch, cosine, histSim)
  }

  // ---------------------------------------------------------------------------------
  // Counting a listing

  function Count(groups: seq<seq<nat>>, x: nat): nat {
    if groups == [] then 0 else Count(groups[..|groups|-1], x) + multiset(groups[|groups|-1])[x]
  }

  lemma {:induction false} AscendingOnce(s: seq<nat>, x: nat)
    requires Ascending(s)
    ensures multiset(s)[x] == if x in s then 1 else 0
  {
    if s != [] {
      var front := s[..|s|-1];
      AscendingOnce(front, x);
      assert s == front + [s[|s|-1]];
    }
  }

  lemma {:induction false} ListingCounts(n: nat, linked: (nat, nat) -> bool, out: seq<seq<nat>>, m: nat, x: nat)
    requires IsComponentListing(n, linked, out) && m <= |out|
    ensures Count(out[..m], x) == if exists g :: 0 <= g < m && x in out[g] then 1 else 0
  {
    if m > 0 {
      ListingCounts(n, linked, out, m - 1, x);
      assert out[..m][..m-1] == out[..m-1];
      GroupIsClass(n, linked, out, m - 1);
      AscendingOnce(out[m-1], x);
      if x in out[m-1] {
        var i :| 0 <= i < |out[m-1]| && out[m-1][i] == x;
        ConnectedRefl(n, linked, x);
      }
    }
  }

  /** Every index occurs exactly once in a component listing. */
  lemma ListingCountsAll(n: nat, linked: (nat, nat) -> bool, out: seq<seq<nat>>, x: nat)
    requires IsComponentListing(n, linked, out)
    ensures Count(out, x) == if x < n then 1 else 0
  {
    ListingCounts(n, linked, out, |out|, x);
    assert out[..|out|] == out;
    if x < n { assert Listed(out, x); }
    if g :| 0 <= g < |out| && x in out[g] {
      var i :| 0 <= i < |out[g]| && out[g][i] == x;
    }
  }

  /** How often `x` occurs in the groups that stay alone, or in the others. */
  function CountIf<V>(groups: seq<seq<nat>>, hist: seq<seq<Hist<V>>>, alone: bool, x: nat): nat
    requires Within(groups, |hist|)
  {
    if groups == [] then 0
    else
      var g := groups[|groups|-1];
      CountIf(groups[..|groups|-1], hist, alone, x) + if IsAlone(hist, g) == alone then multiset(g)[x] else 0
  }

  lemma {:induction false} CountSplits<V>(groups: seq<seq<nat>>, hist: seq<seq<Hist<V>>>, x: nat)
    requires Within(groups, |hist|)
    ensures CountIf(groups, hist, true, x) + CountIf(groups, hist, false, x) == Count(groups, x)
  {
    if groups != [] { CountSplits(groups[..|groups|-1], hist, x); }
  }

  lemma {:induction false} IsolatedCount<V>(groups: seq<seq<nat>>, hist: seq<seq<Hist<V>>>, x: nat)
    requires Within(groups, |hist|)
    ensures multiset(IsolatedOf(groups, hist))[x] == CountIf(groups, hist, true, x)
  {
    if groups != [] {
      var front, g := groups[..|groups|-1], groups[|groups|-1];
      IsolatedCount(front, hist, x);
      var alone := IsolatedOf(front, hist);
      if IsAlone(hist, g) {
        assert g == [g[0]];
        assert IsolatedOf(groups, hist) == alone + g;
      } else {
        assert IsolatedOf(groups, hist) == alone;
      }
    }
  }

  lemma MembersCount<V>(vecs: seq<V>, g: seq<nat>, hist: seq<Hist<V>>, x: nat)
    requires forall k :: 0 <= k < |g| ==> g[k] < |vecs|
    ensures Times(Component(MembersOf(vecs, g), hist), x) == multiset(g)[x]
  {
    var c := Component(MembersOf(vecs, g), hist);
    assert seq(|c.members|, k requires 0 <= k < |c.members| => c.members[k].pos) == g;
  }

  lemma {:induction false} ComponentsTotal<V>(groups: seq<seq<nat>>, vecs: seq<V>, hist: seq<seq<Hist<V>>>, x: nat)
    requires |vecs| == |hist| && Within(groups, |vecs|)
    ensures Total(ComponentsOf(groups, vecs, hist), x) == CountIf(groups, hist, false, x)
  {
    if groups != [] {
      var front, g := groups[..|groups|-1], groups[|groups|-1];
      ComponentsTotal(front, vecs, hist, x);
      var cs := ComponentsOf(front, vecs, hist);
      if IsAlone(hist, g) {
        assert ComponentsOf(groups, vecs, hist) == cs;
      } else {
        var c := Component(MembersOf(vecs, g), HistOf(hist, g));
        MembersCount(vecs, g, HistOf(hist, g), x);
        TotalOne(cs, c, x);
        assert ComponentsOf(groups, vecs, hist) == cs + [c];
      }
    }
  }

  lemma TotalOne<V>(cs: seq<Component<V>>, c: Component<V>, x: nat)
    ensures Total(cs + [c], x) == Total(cs, x) + Times(c, x)
  {
    assert (cs + [c])[..|cs|] == cs;
  }

  /** How often point `x` occurs anywhere in the result. */
  ghost function Placed<V>(r: Result<V>, x: nat): nat
    requires r.Clustered?
  {
    multiset(r.isolated)[x] + Total(r.components, x) + TotalQueues(r.conflicts, x)
  }

  /** The result is the one the trace leads to. */
  ghost predicate Follows<V>(r: Result<V>, t: Trace<V>, vecs: seq<V>, cosine: (V, V) -> real, mergeSim: real)
    requires r.Clustered?
  {
    && IsComponentListing(|vecs|, Over(vecs, cosine, mergeSim), t.groups)
    && |t.hist| == |vecs| && Within(t.groups, |vecs|)
    && t.comps == ComponentsOf(t.groups, vecs, t.hist)
    && Enumerates(t.order, SharedIds(t.comps))
    && r.isolated == IsolatedOf(t.groups, t.hist)
    && r.components == PlainOf(t.comps, Used(t.comps, t.order, |t.order|), |t.comps|)
    && r.conflicts == QueuesOf(t.comps, t.order, |t.order|, cosine)
  }

  /** Each current point is placed once, or is in a lost component and placed nowhere. */
  lemma PlacedOnceOrLost<V>(r: Result<V>, t: Trace<V>, vecs: seq<V>, cosine: (V, V) -> real, mergeSim: real, x: nat)
    requires r.Clustered? && Follows(r, t, vecs, cosine, mergeSim)
    ensures Placed(r, x) + Total(Lost(t.comps, t.order), x) == if x < |vecs| then 1 else 0
  {
    IsolatedCount(t.groups, t.hist, x);
    ComponentsTotal(t.groups, vecs, t.hist, x);
    CountSplits(t.groups, t.hist, x);
    ListingCountsAll(|vecs|, Over(vecs, cosine, mergeSim), t.groups, x);
    PointsAccounted(t.comps, t.order, cosine, x);
  }

  /** Who is isolated and what the components are, for every result: a point is isolated exactly
    * when nothing in history matches it and it is connected to no other, and each remaining class
    * is exactly one component, with its members' matches as its history. */
  lemma PlacedByClass<V>(r: Result<V>, t: Trace<V>, vecs: seq<V>, cosine: (V, V) -> real, mergeSim: real)
    requires r.Clustered? && Follows(r, t, vecs, cosine, mergeSim)
    ensures var n, linked := |vecs|, Over(vecs, cosine, mergeSim);
      && (forall x: nat :: x in r.isolated <==> Lone(n, linked, t.hist, x)) && Increasing(r.isolated)
      && (forall d :: 0 <= d < |t.comps| ==> IsClassComponent(n, linked, vecs, t.hist, t.comps[d]))
      && (forall x: nat :: x < n ==> HeldOnceUnlessLone(n, linked, t.hist, t.comps, x))
      && ByFirstMember(t.comps)
  {
    IsolatedIff(Over(vecs, cosine, mergeSim), t.groups, t.hist);
    ComponentsAreClasses(Over(vecs, cosine, mergeSim), t.groups, vecs, t.hist);
  }

  /** What `KeepLong` keeps is one of the lists, and long. */
  lemma {:induction false} KeptIsLong<V>(ss: seq<seq<Component<V>>>, q: nat) returns (j: nat)
    requires q < |KeepLong(ss)|
    ensures j < |ss| && KeepLong(ss)[q] == ss[j] && |ss[j]| >= 2
    decreases |ss|
  {
    j := |ss| - 1;
    if q < |KeepLong(ss[..|ss|-1])| { j := KeptIsLong(ss[..|ss|-1], q); }
  }

  /** Every queue is the sorted queue of one shared id. */
  lemma QueueOf<V>(comps: seq<Component<V>>, order: seq<string>, k: nat, cosine: (V, V) -> real, q: nat)
    returns (j: nat)
    requires k <= |order| && q < |QueuesOf(comps, order, k, cosine)|
    ensures j < k && |Queue(comps, order, j)| >= 2
    ensures QueuesOf(comps, order, k, cosine)[q] == Sorted(comps, order, j, cosine)
  {
    QueuesAreLong(comps, order, k, cosine);
    j := KeptIsLong(SortedList(comps, order, k, cosine), q);
  }

  /** Every entry carries the vector stored under its id. */
  ghost predicate Fetched<V>(h: seq<Hist<V>>, fetch: string -> Fetch<V>) {
    forall i :: 0 <= i < |h| ==> fetch(h[i].id) == Stored(h[i].vec)
  }

  lemma {:induction false} MatchesFetched<V>(v: V, hits: seq<Hit>, fetch: string -> Fetch<V>, cosine: (V, V) -> real,
                                             histSim: real)
    requires Matches(v, hits, fetch, cosine, histSim).Some?
    ensures Fetched(Matches(v, hits, fetch, cosine, histSim).value, fetch)
  {
    if hits != [] && (hits[0].kind != POINT_KIND || hits[0].score >= histSim) {
      MatchesFetched(v, hits[1..], fetch, cosine, histSim);
    }
  }

  lemma {:induction false} HistFetched<V>(hist: seq<seq<Hist<V>>>, idx: seq<nat>, fetch: string -> Fetch<V>)
    requires forall i :: 0 <= i < |hist| ==> Fetched(hist[i], fetch)
    requires forall k :: 0 <= k < |idx| ==> idx[k] < |hist|
    ensures Fetched(HistOf(hist, idx), fetch)
  {
    if idx != [] { HistFetched(hist, idx[..|idx|-1], fetch); }
  }

  lemma {:induction false} ComponentsFetched<V>(groups: seq<seq<nat>>, vecs: seq<V>, hist: seq<seq<Hist<V>>>,
                                                fetch: string -> Fetch<V>)
    requires |vecs| == |hist| && Within(groups, |vecs|)
    requires forall i :: 0 <= i < |hist| ==> Fetched(hist[i], fetch)
    ensures forall c :: 0 <= c < |ComponentsOf(groups, vecs, hist)| ==>
      Fetched(ComponentsOf(groups, vecs, hist)[c].hist, fetch)
  {
    if groups != [] {
      ComponentsFetched(groups[..|groups|-1], vecs, hist, fetch);
      HistFetched(hist, groups[|groups|-1], fetch);
    }
  }

  /** The indices name at least two components, in the order of the component list, and all of
    * them list `id`. */
  ghost predicate Compete<V>(comps: seq<Component<V>>, idx: seq<nat>, id: string) {
    && |idx| >= 2 && Ascending(idx)
    && forall i :: 0 <= i < |idx| ==> idx[i] < |comps| && Lists(comps[idx[i]], id)
  }

  /** The queue holds components that compete for one shared id, by descending affinity to the
    * vector stored under that id, and those of equal affinity in the order of the component list. */
  ghost predicate Fair<V>(comps: seq<Component<V>>, queue: seq<Component<V>>, fetch: string -> Fetch<V>,
                          cosine: (V, V) -> real) {
    exists id, idx :: Compete(comps, idx, id) && fetch(id).Stored?
      && StablySorted(At(comps, idx), queue, Rank(fetch(id).vec, cosine))
  }

  /** The shared vector a queue is ordered by is the one stored under its id. */
  lemma {:induction false} SharedIsStored<V>(comps: seq<Component<V>>, id: string, fetch: string -> Fetch<V>)
    requires forall c :: 0 <= c < |comps| ==> Fetched(comps[c].hist, fetch)
    requires Sharers(comps, id, |comps|) != []
    ensures fetch(id) == Stored(SharedVec(comps, Sharers(comps, id, |comps|), id).value)
  {
    var list := Sharers(comps, id, |comps|);
    SharedVecIs(comps, list, id);
    var h, w := comps[list[|list|-1]].hist, SharedVec(comps, list, id).value;
    var i: nat :| LastAt(h, id, w, i);
  }

  lemma QueueIsFair<V>(comps: seq<Component<V>>, order: seq<string>, fetch: string -> Fetch<V>,
                       cosine: (V, V) -> real, q: nat)
    requires forall c :: 0 <= c < |comps| ==> Fetched(comps[c].hist, fetch)
    requires q < |QueuesOf(comps, order, |order|, cosine)|
    ensures Fair(comps, QueuesOf(comps, order, |order|, cosine)[q], fetch, cosine)
  {
    var j := QueueOf(comps, order, |order|, cosine, q);
    var idx, id := Queue(comps, order, j), order[j];
    QueueFits(comps, order, j);
    QueueAscends(comps, order, j);
    SharedIsStored(comps, id, fetch);
    SortIsStable(At(comps, idx), Rank(fetch(id).vec, cosine));
    assert Compete(comps, idx, id);
  }

  /** The historical points of every current point are what its search and the fetches gave. */
  ghost predicate Matched<V>(t: Trace<V>, vecs: seq<V>, hits: seq<Option<seq<Hit>>>, fetch: string -> Fetch<V>,
                             cosine: (V, V) -> real, histSim: real)
    requires |hits| == |vecs|
  {
    |t.hist| == |vecs| && forall i :: 0 <= i < |vecs| ==>
      MatchesFor(vecs[i], hits[i], fetch, cosine, histSim) == Some(t.hist[i])
  }

  /** Every conflict queue of a result is fair. */
  lemma ConflictsAreFair<V>(r: Result<V>, t: Trace<V>, vecs: seq<V>, hits: seq<Option<seq<Hit>>>,
                            fetch: string -> Fetch<V>, cosine: (V, V) -> real, mergeSim: real, histSim: real, q: nat)
    requires r.Clustered? && Follows(r, t, vecs, cosine, mergeSim)
    requires |hits| == |vecs| && Matched(t, vecs, hits, fetch, cosine, histSim) && q < |r.conflicts|
    ensures Fair(t.comps, r.conflicts[q], fetch, cosine)
  {
    forall i | 0 <= i < |vecs| ensures Fetched(t.hist[i], fetch) {
      assert MatchesFor(vecs[i], hits[i], fetch, cosine, histSim) == Some(t.hist[i]);
      MatchesFetched(vecs[i], hits[i].value, fetch, cosine, histSim);
    }
    ComponentsFetched(t.groups, vecs, t.hist, fetch);
    QueueIsFair(t.comps, t.order, fetch, cosine, q);
  }

  // ---------------------------------------------------------------------------------
  // An input that loses its points

  lemma PairListing(linked: (nat, nat) -> bool)
    requires Adjacent(linked, 0, 1)
    ensures IsComponentListing(2, linked, [[0, 1]])
  {
    ConnectedRefl(2, linked, 0);
    ConnectedRefl(2, linked, 1);
    ConnectedStep(2, linked, 0, 1);
    ConnectedSym(2, linked, 0, 1);
    assert 0 in [0, 1] && 1 in [0, 1];
    assert forall x: nat :: x < 2 ==> x in [[0, 1]][0];
  }

  /** The one hit `h`, whose stored vector is `w`, matches the current vector `v`. */
  predicate OneMatch<V(==)>(v: V, h: Hit, w: V, fetch: string -> Fetch<V>, cosine: (V, V) -> real, histSim: real) {
    h.kind == POINT_KIND && h.score >= histSim && fetch(h.id) == Stored(w) && cosine(v, w) > histSim
  }

  lemma OneMatchIs<V>(v: V, h: Hit, w: V, fetch: string -> Fetch<V>, cosine: (V, V) -> real, histSim: real)
    requires OneMatch(v, h, w, fetch, cosine, histSim)
    ensures MatchesFor(v, Some([h]), fetch, cosine, histSim) == Some([Hist(h.id, w)])
  {
    var none: seq<Hit>, x := [], Hist(h.id, w);
    assert [h][1..] == none;
    assert Matches(v, none, fetch, cosine, histSim) == Some([]);
    assert [x] + [] == [x];
  }

  /** Two similar points whose searches find the same one historical point: the stage puts
    * neither of them anywhere. */
  lemma SharedByTwoMembersIsLost<V>(a: V, b: V, h: Hit, w: V, fetch: string -> Fetch<V>, cosine: (V, V) -> real,
                                    mergeSim: real, histSim: real, r: Result<V>, t: Trace<V>)
    requires cosine(a, b) > mergeSim
    requires OneMatch(a, h, w, fetch, cosine, histSim) && OneMatch(b, h, w, fetch, cosine, histSim)
    requires Matched(t, [a, b], [Some([h]), Some([h])], fetch, cosine, histSim)
    requires r.Clustered? && Follows(r, t, [a, b], cosine, mergeSim)
    ensures r == Clustered([], [], [])
  {
    var x, linked := Hist(h.id, w), Over([a, b], cosine, mergeSim);
    OneMatchIs(a, h, w, fetch, cosine, histSim);
    OneMatchIs(b, h, w, fetch, cosine, histSim);
    assert t.hist == [[x], [x]];
    PairListing(linked);
    ListingUnique(2, linked, t.groups, [[0, 1]]);
    PairComponent([a, b], t.hist, x);
    var c := t.comps[0];
    assert t.comps == [c];
    OnlyId(c, x, t.order);
    OwnRivalIsLost(c, x, cosine);
  }

  lemma PairComponent<V>(vecs: seq<V>, hist: seq<seq<Hist<V>>>, x: Hist<V>)
    requires |vecs| == 2 && hist == [[x], [x]]
    ensures IsolatedOf([[0, 1]], hist) == []
    ensures ComponentsOf([[0, 1]], vecs, hist) == [Component(MembersOf(vecs, [0, 1]), [x, x])]
  {
    var g: seq<nat> := [0, 1];
    var none: seq<seq<nat>> := [];
    assert [g][..0] == none;
    assert HistOf(hist, g) == [x, x] by {
      assert g[..1] == [0] && [0][..0] == [];
      assert HistOf(hist, [0]) == [x];
    }
  }

  lemma OnlyId<V>(c: Component<V>, x: Hist<V>, order: seq<string>)
    requires c.hist == [x, x] && Enumerates(order, SharedIds([c]))
    ensures order == [x.id]
  {
    var ids := Ids(c.hist);
    assert ids == [x.id, x.id];
    assert [c][0] == c && x.id in ids;
    assert SharedIds([c]) == {x.id};
    assert x.id in order;
    assert |order| <= 1 || order[0] != order[1];
    forall i | 0 <= i < |order| ensures order[i] == x.id { assert order[i] in order; }
  }

  // ---------------------------------------------------------------------------------
  // The stage

  method KeysInSomeOrder(keys: set<string>) returns (order: seq<string>)
    ensures Enumerates(order, keys)
  {
    order := [];
    var rest := keys;
    while rest != {}
      invariant rest <= keys && Enumerates(order, keys - rest)
      decreases rest
    {
      var id :| id in rest;
      order := order + [id];
      rest := rest - {id};
    }
  }

  method MatchAll<V>(vecs: seq<V>, hits: seq<Option<seq<Hit>>>, fetch: string -> Fetch<V>, cosine: (V, V) -> real,
                     histSim: real)
    returns (r: Option<seq<seq<Hist<V>>>>)
    requires |hits| == |vecs|
    ensures r.None? <==> exists i :: 0 <= i < |vecs| && MatchesFor(vecs[i], hits[i], fetch, cosine, histSim).None?
    ensures r.Some? ==> |r.value| == |vecs| && forall i :: 0 <= i < |vecs| ==>
      MatchesFor(vecs[i], hits[i], fetch, cosine, histSim) == Some(r.value[i])
  {
    var hist: seq<seq<Hist<V>>> := [];
    var i := 0;
    while i < |vecs|
      invariant 0 <= i == |hist| <= |vecs|
      invariant forall j :: 0 <= j < i ==> MatchesFor(vecs[j], hits[j], fetch, cosine, histSim) == Some(hist[j])
    {
      if hits[i].None? {
        assert MatchesFor(vecs[i], hits[i], fetch, cosine, histSim).None?;
        return None;
      }
      var found := FindMatches(vecs[i], hits[i].value, fetch, cosine, histSim);
      if found.None? {
        assert MatchesFor(vecs[i], hits[i], fetch, cosine, histSim).None?;
        return None;
      }
      hist := hist + [found.value];
      i := i + 1;
    }
    r := Some(hist);
  }

  method Cluster<V>(vecs: seq<V>, hits: seq<Option<seq<Hit>>>, fetch: string -> Fetch<V>, cosine: (V, V) -> real,
                    mergeSim: real, histSim: real)
    returns (r: Result<V>, ghost t: Trace<V>)
    requires |hits| == |vecs|
    ensures r.SearchFailed? <==>
      exists i :: 0 <= i < |vecs| && MatchesFor(vecs[i], hits[i], fetch, cosine, Default(histSim, 0.8)).None?
    ensures r.Clustered? ==> Follows(r, t, vecs, cosine, Default(mergeSim, 0.75))
    ensures r.Clustered? ==> Matched(t, vecs, hits, fetch, cosine, Default(histSim, 0.8))
    ensures r.Clustered? ==> forall q :: 0 <= q < |r.conflicts| ==> Fair(t.comps, r.conflicts[q], fetch, cosine)
    ensures r.Clustered? ==> forall x: nat ::
      Placed(r, x) + Total(Lost(t.comps, t.order), x) == if x < |vecs| then 1 else 0
  {
    var merge, past := Default(mergeSim, 0.75), Default(histSim, 0.8);
    t := Trace([], [], [], []);
    var groups := Components(|vecs|, Over(vecs, cosine, merge));
    var hist := MatchAll(vecs, hits, fetch, cosine, past);
    if hist.None? {
      return SearchFailed, t;
    }
    var isolated, comps := BuildComponents(groups, vecs, hist.value);
    var index := IndexHist(comps);
    var order := KeysInSomeOrder(index.Keys);
    var plain, conflicts := ResolveConflicts(comps, index, order, cosine);
    IndexCoversShared(comps, index);
    r := Clustered(plain, isolated, conflicts);
    t := Trace(groups, hist.value, comps, order);
    forall x: nat ensures Placed(r, x) + Total(Lost(t.comps, t.order), x) == if x < |vecs| then 1 else 0 {
      PlacedOnceOrLost(r, t, vecs, cosine, merge, x);
    }
    forall q | 0 <= q < |r.conflicts| ensures Fair(t.comps, r.conflicts[q], fetch, cosine) {
      ConflictsAreFair(r, t, vecs, hits, fetch, cosine, merge, past, q);
    }
  }

  lemma IndexCoversShared<V>(comps: seq<Component<V>>, index: Index)
    requires Indexes(index, comps, |comps|)
    ensures index.Keys == SharedIds(comps)
  {
    forall id | id in index ensures id in SharedIds(comps) {
      assert ListedBy(comps, id, |comps|);
    }
    forall id | id in SharedIds(comps) ensures id in index {
      var ci: nat :| ci < |comps| && id in Ids(comps[ci].hist);
      SharersAre(comps, id, |comps|);
      assert Lists(comps[ci], id);
      assert ci in Sharers(comps, id, |comps|);
      assert ListFor(index, id) != [];
    }
  }
}
