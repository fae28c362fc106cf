/** s2: connecting current points to history, and the conflict queues.
  *
  * Points are named by their position in the input.  The map range over shared historical
  * ids has no fixed order in the source, so the order is a parameter and every statement
  * holds for each order it can take.
  */
module Conflicts {
  import opened Selection
  import opened StableOrder
  import VectorSearch
  import opened Wrappers

  datatype Hist<V> = Hist(id: string, vec: V)
  type Hit = VectorSearch.Hit
  datatype Fetch<+V> = Stored(vec: V) | Gone | FetchFailed

  /** A current point: its position in the input and its vector. */
  datatype Member<V> = Member(pos: nat, vec: V)

  datatype Component<V> = Component(members: seq<Member<V>>, hist: seq<Hist<V>>)

  const POINT_KIND := VectorSearch.POINT_KIND

  // ---------------------------------------------------------------------------------
  // Historical matches of one current point

  function Glue<V>(a: seq<Hist<V>>, b: Option<seq<Hist<V>>>): Option<seq<Hist<V>>> {
    if b.None? then None else Some(a + b.value)
  }

  function Match<V>(v: V, h: Hit, w: V, cosine: (V, V) -> real, histSim: real): seq<Hist<V>> {
    if cosine(v, w) > histSim then [Hist(h.id, w)] else []
  }

  /** The scan as coded: it stops at the first interest point scored below `histSim`. */
  function Matches<V>(v: V, hits: seq<Hit>, fetch: string -> Fetch<V>, cosine: (V, V) -> real, histSim: real)
    : Option<seq<Hist<V>>>
  {
    if hits == [] then Some([])
    else if hits[0].kind != POINT_KIND then Matches(v, hits[1..], fetch, cosine, histSim)
    else if hits[0].score < histSim then Some([])
    else match fetch(hits[0].id)
      case FetchFailed => None
      case Gone => Matches(v, hits[1..], fetch, cosine, histSim)
      case Stored(w) => Glue(Match(v, hits[0], w, cosine, histSim), Matches(v, hits[1..], fetch, cosine, histSim))
  }

  /** The matches with no early stop: every interest point scored at least `histSim`. */
  function AllMatches<V>(v: V, hits: seq<Hit>, fetch: string -> Fetch<V>, cosine: (V, V) -> real, histSim: real)
    : Option<seq<Hist<V>>>
  {
    if hits == [] then Some([])
    else if hits[0].kind != POINT_KIND || hits[0].score < histSim then AllMatches(v, hits[1..], fetch, cosine, histSim)
    else match fetch(hits[0].id)
      case FetchFailed => None
      case Gone => AllMatches(v, hits[1..], fetch, cosine, histSim)
      case Stored(w) => Glue(Match(v, hits[0], w, cosine, histSim), AllMatches(v, hits[1..], fetch, cosine, histSim))
  }

  lemma {:induction false} NoneBelow<V>(v: V, hits: seq<Hit>, fetch: string -> Fetch<V>, cosine: (V, V) -> real,
                                        histSim: real)
    requires forall i :: 0 <= i < |hits| ==> hits[i].score < histSim
    ensures AllMatches(v, hits, fetch, cosine, histSim) == Some([])
  {
    if hits != [] { NoneBelow(v, hits[1..], fetch, cosine, histSim); }
  }

  /** On hits ranked by score, as `VectorSearch.Search` returns them, the early stop loses
    * no match. */
  lemma {:induction false} RankedStopIsExact<V>(v: V, hits: seq<Hit>, fetch: string -> Fetch<V>,
                                                cosine: (V, V) -> real, histSim: real)
    requires Descending(hits, VectorSearch.ByScore)
    ensures Matches(v, hits, fetch, cosine, histSim) == AllMatches(v, hits, fetch, cosine, histSim)
  {
    if hits != [] {
      if hits[0].kind == POINT_KIND && hits[0].score < histSim {
        NoneBelow(v, hits[1..], fetch, cosine, histSim);
      } else {
        RankedStopIsExact(v, hits[1..], fetch, cosine, histSim);
      }
    }
  }

  /** The scan stops here: an interest point scored below the threshold. */
  predicate Below(h: Hit, histSim: real) {
    h.kind == POINT_KIND && h.score < histSim
  }

  /** Where the scan stops. */
  function StopAt(hits: seq<Hit>, histSim: real): (k: nat)
    ensures k <= |hits| && (k < |hits| ==> Below(hits[k], histSim))
    ensures forall j :: 0 <= j < k ==> !Below(hits[j], histSim)
  {
    if hits == [] || Below(hits[0], histSim) then 0 else StopAt(hits[1..], histSim) + 1
  }

  /** A hit is a match when it is an interest point whose stored vector is more similar than the
    * threshold. */
  function MatchOf<V>(v: V, h: Hit, fetch: string -> Fetch<V>, cosine: (V, V) -> real, histSim: real): Option<Hist<V>> {
    if h.kind == POINT_KIND && fetch(h.id).Stored? && cosine(v, fetch(h.id).vec) > histSim
    then Some(Hist(h.id, fetch(h.id).vec)) else None
  }

  function MatchesOf<V>(v: V, hits: seq<Hit>, fetch: string -> Fetch<V>, cosine: (V, V) -> real, histSim: real)
    : (r: seq<Option<Hist<V>>>)
    ensures |r| == |hits| && forall i :: 0 <= i < |hits| ==> r[i] == MatchOf(v, hits[i], fetch, cosine, histSim)
  {
    seq(|hits|, i requires 0 <= i < |hits| => MatchOf(v, hits[i], fetch, cosine, histSim))
  }

  ghost predicate FetchFails<V>(hits: seq<Hit>, fetch: string -> Fetch<V>) {
    exists i :: 0 <= i < |hits| && hits[i].kind == POINT_KIND && fetch(hits[i].id).FetchFailed?
  }

  lemma {:induction false} MatchesArePresent<V>(v: V, hits: seq<Hit>, fetch: string -> Fetch<V>, cosine: (V, V) -> real,
                                                histSim: real)
    ensures var seen, m := hits[..StopAt(hits, histSim)], Matches(v, hits, fetch, cosine, histSim);
      && (m.None? <==> FetchFails(seen, fetch))
      && (m.Some? ==> m.value == Present(MatchesOf(v, seen, fetch, cosine, histSim)))
  {
    if hits != [] && !Below(hits[0], histSim) {
      var h, rest := hits[0], hits[1..];
      MatchesArePresent(v, rest, fetch, cosine, histSim);
      var seen, others := hits[..StopAt(hits, histSim)], rest[..StopAt(rest, histSim)];
      assert seen == [h] + others;
      FetchFailsCons(h, others, fetch);
      var o := MatchOf(v, h, fetch, cosine, histSim);
      assert MatchesOf(v, seen, fetch, cosine, histSim) == [o] + MatchesOf(v, others, fetch, cosine, histSim);
      PresentCons(o, MatchesOf(v, others, fetch, cosine, histSim));
      var tail := Matches(v, rest, fetch, cosine, histSim);
      if tail.Some? { assert [] + tail.value == tail.value; }
    }
  }

  lemma FetchFailsCons<V>(h: Hit, hits: seq<Hit>, fetch: string -> Fetch<V>)
    ensures FetchFails([h] + hits, fetch) <==>
      (h.kind == POINT_KIND && fetch(h.id).FetchFailed?) || FetchFails(hits, fetch)
  {
    var all := [h] + hits;
    if h.kind == POINT_KIND && fetch(h.id).FetchFailed? { assert all[0] == h; }
    if i :| 0 <= i < |hits| && hits[i].kind == POINT_KIND && fetch(hits[i].id).FetchFailed? {
      assert all[i+1] == hits[i];
    }
  }

  /** Up to where the scan stops, exactly the matches are kept, in order; it fails exactly when
    * a fetch before that fails. */
  lemma MatchesAre<V>(v: V, hits: seq<Hit>, fetch: string -> Fetch<V>, cosine: (V, V) -> real, histSim: real)
    ensures var seen, m := hits[..StopAt(hits, histSim)], Matches(v, hits, fetch, cosine, histSim);
      && (m.None? <==> FetchFails(seen, fetch))
      && (m.Some? ==> Somes(MatchesOf(v, seen, fetch, cosine, histSim), m.value))
  {
    MatchesArePresent(v, hits, fetch, cosine, histSim);
    PresentIs(MatchesOf(v, hits[..StopAt(hits, histSim)], fetch, cosine, histSim));
  }

  method FindMatches<V>(v: V, hits: seq<Hit>, fetch: string -> Fetch<V>, cosine: (V, V) -> real, histSim: real)
    returns (r: Option<seq<Hist<V>>>)
    ensures r == Matches(v, hits, fetch, cosine, histSim)
  {
    var found: seq<Hist<V>> := [];
    var i := 0;
    if Matches(v, hits, fetch, cosine, histSim).Some? {
      assert [] + Matches(v, hits, fetch, cosine, histSim).value == Matches(v, hits, fetch, cosine, histSim).value;
    }
    assert hits[0..] == hits;
    while i < |hits|
      invariant 0 <= i <= |hits|
      invariant Matches(v, hits, fetch, cosine, histSim) == Glue(found, Matches(v, hits[i..], fetch, cosine, histSim))
    {
      var h := hits[i];
      assert hits[i..][1..] == hits[i+1..];
      i := i + 1;
      if h.kind != POINT_KIND { continue; }
      if h.score < histSim {
        assert found + [] == found;
        return Some(found);
      }
      match fetch(h.id) {
        case FetchFailed => return None;
        case Gone =>
        case Stored(w) =>
          ghost var rest := Matches(v, hits[i..], fetch, cosine, histSim);
          if rest.Some? {
            var one := Match(v, h, w, cosine, histSim);
            assert found + (one + rest.value) == (found + one) + rest.value;
          }
          if cosine(v, w) > histSim {
            found := found + [Hist(h.id, w)];
          } else {
            assert found + [] == found;
          }
      }
    }
    assert found + [] == found;
    r := Some(found);
  }

  // ---------------------------------------------------------------------------------
  // Components and isolated points

  function HistOf<V>(hist: seq<seq<Hist<V>>>, idx: seq<nat>): seq<Hist<V>>
    requires forall k :: 0 <= k < |idx| ==> idx[k] < |hist|
  {
    if idx == [] then [] else HistOf(hist, idx[..|idx|-1]) + hist[idx[|idx|-1]]
  }

  predicate IsAlone<V>(hist: seq<seq<Hist<V>>>, g: seq<nat>)
    requires forall k :: 0 <= k < |g| ==> g[k] < |hist|
  {
    |g| == 1 && hist[g[0]] == []
  }

  ghost predicate Within(groups: seq<seq<nat>>, n: nat) {
    forall g, k :: 0 <= g < |groups| && 0 <= k < |groups[g]| ==> groups[g][k] < n
  }

  function IsolatedOf<V>(groups: seq<seq<nat>>, hist: seq<seq<Hist<V>>>): seq<nat>
    requires Within(groups, |hist|)
  {
    if groups == [] then []
    else
      var g := groups[|groups|-1];
      IsolatedOf(groups[..|groups|-1], hist) + if IsAlone(hist, g) then [g[0]] else []
  }

  function MembersOf<V>(vecs: seq<V>, g: seq<nat>): (r: seq<Member<V>>)
    requires forall k :: 0 <= k < |g| ==> g[k] < |vecs|
    ensures |r| == |g|
  {
    seq(|g|, k requires 0 <= k < |g| && g[k] < |vecs| => Member(g[k], vecs[g[k]]))
  }

  function ComponentsOf<V>(groups: seq<seq<nat>>, vecs: seq<V>, hist: seq<seq<Hist<V>>>): seq<Component<V>>
    requires |vecs| == |hist| && Within(groups, |vecs|)
  {
    if groups == [] then []
    else
      var g := groups[|groups|-1];
      ComponentsOf(groups[..|groups|-1], vecs, hist)
      + if IsAlone(hist, g) then [] else [Component(MembersOf(vecs, g), HistOf(hist, g))]
  }

  method BuildComponents<V>(groups: seq<seq<nat>>, vecs: seq<V>, hist: seq<seq<Hist<V>>>)
    returns (isolated: seq<nat>, comps: seq<Component<V>>)
    requires |vecs| == |hist| && Within(groups, |vecs|)
    ensures isolated == IsolatedOf(groups, hist) && comps == ComponentsOf(groups, vecs, hist)
  {
    isolated, comps := [], [];
    var g := 0;
    while g < |groups|
      invariant 0 <= g <= |groups|
      invariant isolated == IsolatedOf(groups[..g], hist) && comps == ComponentsOf(groups[..g], vecs, hist)
    {
      var idx := groups[g];
      assert groups[..g+1][..g] == groups[..g];
      g := g + 1;
      if |idx| == 1 {
        if hist[idx[0]] == [] {
          isolated := isolated + [idx[0]];
          continue;
        }
      }
      var members: seq<Member<V>>, all: seq<Hist<V>> := [], [];
      var k := 0;
      while k < |idx|
        invariant 0 <= k <= |idx|
        invariant members == MembersOf(vecs, idx)[..k] && all == HistOf(hist, idx[..k])
      {
        assert idx[..k+1][..k] == idx[..k];
        members := members + [Member(idx[k], vecs[idx[k]])];
        all := all + hist[idx[k]];
        k := k + 1;
      }
      assert idx[..k] == idx && members == MembersOf(vecs, idx);
      comps := comps + [Component(members, all)];
    }
    assert groups[..g] == groups;
  }

  // ---------------------------------------------------------------------------------
  // Affinity order

  /** The largest similarity of the first `n` members, and -1 for none. */
  function AffinityTo<V>(members: seq<Member<V>>, n: nat, shared: V, cosine: (V, V) -> real): real
    requires n <= |members|
    decreases n
  {
    if n == 0 then -1.0
    else
      var best, s := AffinityTo(members, n - 1, shared, cosine), cosine(members[n-1].vec, shared);
      if s > best then s else best
  }

  lemma {:induction false} AffinityIsLargest<V>(members: seq<Member<V>>, n: nat, shared: V, cosine: (V, V) -> real)
    requires n <= |members|
    ensures forall k :: 0 <= k < n ==> AffinityTo(members, n, shared, cosine) >= cosine(members[k].vec, shared)
    ensures AffinityTo(members, n, shared, cosine) >= -1.0
    ensures AffinityTo(members, n, shared, cosine) == -1.0 ||
      exists k :: 0 <= k < n && AffinityTo(members, n, shared, cosine) == cosine(members[k].vec, shared)
    decreases n
  {
    if n > 0 { AffinityIsLargest(members, n - 1, shared, cosine); }
  }

  method AffinityOf<V>(c: Component<V>, shared: V, cosine: (V, V) -> real) returns (best: real)
    ensures best == Rank(shared, cosine)(c)
  {
    best := -1.0;
    for k := 0 to |c.members|
      invariant best == AffinityTo(c.members, k, shared, cosine)
    {
      var s := cosine(c.members[k].vec, shared);
      if s > best { best := s; }
    }
  }

  /** The sort key of a conflict queue. */
  function Rank<V>(shared: V, cosine: (V, V) -> real): Component<V> -> real {
    (c: Component<V>) => AffinityTo(c.members, |c.members|, shared, cosine)
  }

  /** The inner loop: moves entry `i` left past every entry of smaller affinity. */
  method SiftLeft<V>(queue: array<Component<V>>, i: nat, shared: V, cosine: (V, V) -> real)
    requires i < queue.Length
    modifies queue
    ensures queue[..] == InsertLast(old(queue[..i]), old(queue[i]), Rank(shared, cosine)) + old(queue[i+1..])
  {
    ghost var rank, sorted, x, rest := Rank(shared, cosine), queue[..i], queue[i], queue[i+1..];
    var j := i;
    assert sorted[..j] == sorted && sorted[j..] == [];
    while j > 0
      invariant 0 <= j <= i
      invariant queue[..] == sorted[..j] + [x] + sorted[j..] + rest
      invariant InsertLast(sorted, x, rank) == InsertLast(sorted[..j], x, rank) + sorted[j..]
    {
      assert queue[j-1] == queue[..][j-1] == sorted[j-1];
      assert queue[j] == queue[..][j] == x;
      var left := AffinityOf(queue[j-1], shared, cosine);
      var right := AffinityOf(queue[j], shared, cosine);
      if !(left < right) { break; }
      Swapped(sorted, j, x, rest);
      InsertPast(sorted, j, x, rank);
      Swap(queue, j);
      j := j - 1;
    }
    InsertStops(sorted, j, x, rank);
  }

  method Swap<T>(a: array<T>, j: nat)
    requires 0 < j < a.Length
    modifies a
    ensures a[..] == old(a[..])[j-1 := old(a[j])][j := old(a[j-1])]
  {
    a[j-1], a[j] := a[j], a[j-1];
  }

  /** Orders a queue in place, highest affinity first, ties untouched. */
  method SortConflictQueue<V>(queue: array<Component<V>>, shared: V, cosine: (V, V) -> real)
    modifies queue
    ensures queue[..] == Sort(old(queue[..]), Rank(shared, cosine))
    ensures StablySorted(old(queue[..]), queue[..], Rank(shared, cosine))
  {
    ghost var was, rank := queue[..], Rank(shared, cosine);
    if queue.Length > 0 {
      SortOne(was, rank);
      var i := 1;
      while i < queue.Length
        invariant 1 <= i <= queue.Length
        invariant queue[..] == Sort(was[..i], rank) + was[i..]
      {
        Parts(queue[..], Sort(was[..i], rank), was, i);
        SiftLeft(queue, i, shared, cosine);
        SortNext(was, i, rank);
        i := i + 1;
      }
      assert was[..i] == was && was[i..] == [];
    }
    SortIsStable(was, rank);
  }

  lemma Parts<T>(all: seq<T>, sorted: seq<T>, was: seq<T>, i: nat)
    requires i < |was| && |sorted| == i && all == sorted + was[i..]
    ensures all[..i] == sorted && all[i] == was[i] && all[i+1..] == was[i+1..]
  {
  }

  lemma SortNext<T>(was: seq<T>, i: nat, key: T -> real)
    requires i < |was|
    ensures Sort(was[..i+1], key) == InsertLast(Sort(was[..i], key), was[i], key)
  {
    assert was[..i+1][..i] == was[..i];
  }

  lemma SortOne<T>(s: seq<T>, key: T -> real)
    ensures |s| > 0 ==> Sort(s[..1], key) == s[..1]
  {
  }

  lemma Swapped<T>(p: seq<T>, j: nat, x: T, rest: seq<T>)
    requires 0 < j <= |p|
    ensures (p[..j] + [x] + p[j..] + rest)[j-1 := x][j := p[j-1]] == p[..j-1] + [x] + p[j-1..] + rest
  {
  }

  lemma InsertPast<T>(p: seq<T>, j: nat, x: T, key: T -> real)
    requires 0 < j <= |p| && key(p[j-1]) < key(x)
    ensures InsertLast(p[..j], x, key) + p[j..] == InsertLast(p[..j-1], x, key) + p[j-1..]
  {
    assert p[..j][..j-1] == p[..j-1];
    assert p[j-1..] == [p[j-1]] + p[j..];
  }

  lemma InsertStops<T>(p: seq<T>, j: nat, x: T, key: T -> real)
    requires j <= |p| && (j == 0 || key(p[j-1]) >= key(x))
    ensures InsertLast(p[..j], x, key) == p[..j] + [x]
  {
  }

  // ---------------------------------------------------------------------------------
  // Conflict queues

  function Ids<V>(h: seq<Hist<V>>): (r: seq<string>)
    ensures |r| == |h| && forall k :: 0 <= k < |h| ==> r[k] == h[k].id
  {
    seq(|h|, k requires 0 <= k < |h| => h[k].id)
  }

  /** `ci` once for every occurrence of `id`. */
  function Copies(ids: seq<string>, id: string, ci: nat): (r: seq<nat>)
    ensures forall k :: 0 <= k < |r| ==> r[k] == ci
    ensures r != [] ==> id in ids
  {
    if ids == [] then []
    else
      var rest := Copies(ids[..|ids|-1], id, ci);
      if ids[|ids|-1] == id then rest + [ci] else rest
  }

  /** The components below `m` that list `id`, once per listing. */
  function Sharers<V>(comps: seq<Component<V>>, id: string, m: nat): (r: seq<nat>)
    requires m <= |comps|
    ensures forall k :: 0 <= k < |r| ==> r[k] < m && Lists(comps[r[k]], id)
  {
    if m == 0 then [] else Sharers(comps, id, m - 1) + Copies(Ids(comps[m-1].hist), id, m - 1)
  }

  predicate Lists<V>(c: Component<V>, id: string) {
    id in Ids(c.hist)
  }

  lemma {:induction false} CopiesAre(ids: seq<string>, id: string, ci: nat)
    ensures id in ids ==> ci in Copies(ids, id, ci)
  {
    if ids != [] { CopiesAre(ids[..|ids|-1], id, ci); }
  }

  lemma {:induction false} SharersAre<V>(comps: seq<Component<V>>, id: string, m: nat)
    requires m <= |comps|
    ensures forall ci: nat :: ci < m && Lists(comps[ci], id) ==> ci in Sharers(comps, id, m)
  {
    if m > 0 {
      SharersAre(comps, id, m - 1);
      CopiesAre(Ids(comps[m-1].hist), id, m - 1);
    }
  }

  type Index = map<string, seq<nat>>

  /** The list kept for an id; absent ids have none. */
  function ListFor(index: Index, id: string): seq<nat> {
    if id in index then index[id] else []
  }

  /** `r` is `index` with `ci` appended to the list of every id in `ids`. */
  ghost predicate Extends(index: Index, r: Index, ids: seq<string>, ci: nat) {
    forall id :: ListFor(r, id) == ListFor(index, id) + Copies(ids, id, ci)
  }

  lemma ExtendOne(index: Index, r: Index, ids: seq<string>, x: string, ci: nat)
    requires Extends(index, r, ids, ci)
    ensures Extends(index, r[x := ListFor(r, x) + [ci]], ids + [x], ci)
  {
    var next := r[x := ListFor(r, x) + [ci]];
    assert (ids + [x])[..|ids|] == ids;
    forall id ensures ListFor(next, id) == ListFor(index, id) + Copies(ids + [x], id, ci) {
      assert ListFor(r, id) == ListFor(index, id) + Copies(ids, id, ci);
      if id == x {
        assert ListFor(next, id) == ListFor(index, id) + (Copies(ids, id, ci) + [ci]);
      } else {
        assert ListFor(next, id) == ListFor(r, id);
        assert Copies(ids, id, ci) + [] == Copies(ids, id, ci);
      }
    }
  }

  method IndexOne(index: Index, h: seq<string>, ci: nat) returns (r: Index)
    ensures Extends(index, r, h, ci)
    ensures r.Keys == index.Keys + set id | id in h
  {
    r := index;
    ghost var done: seq<string> := [];
    assert Extends(index, r, done, ci);
    for k := 0 to |h|
      invariant done == h[..k] && Extends(index, r, done, ci)
      invariant r.Keys == index.Keys + set id | id in done
    {
      ExtendOne(index, r, done, h[k], ci);
      KeysGrow(index.Keys, done, h[k]);
      r := r[h[k] := ListFor(r, h[k]) + [ci]];
      done := done + [h[k]];
    }
    assert done == h;
  }

  lemma KeysGrow(keys: set<string>, done: seq<string>, x: string)
    ensures keys + (set id | id in done + [x]) == keys + (set id | id in done) + {x}
  {
  }

  /** Every id's list holds its sharers among the first `n` components, and every id in the
    * index has one. */
  ghost predicate Indexes<V>(index: Index, comps: seq<Component<V>>, n: nat)
    requires n <= |comps|
  {
    && (forall id :: ListFor(index, id) == Sharers(comps, id, n))
    && (forall id :: id in index ==> ListedBy(comps, id, n))
  }

  ghost predicate ListedBy<V>(comps: seq<Component<V>>, id: string, n: nat)
    requires n <= |comps|
  {
    exists ci :: 0 <= ci < n && Lists(comps[ci], id)
  }

  lemma IndexGrows<V>(was: Index, index: Index, comps: seq<Component<V>>, n: nat)
    requires n < |comps| && Indexes(was, comps, n) && Extends(was, index, Ids(comps[n].hist), n)
    requires index.Keys == was.Keys + set id | id in Ids(comps[n].hist)
    ensures Indexes(index, comps, n + 1)
  {
    forall id | id in index ensures ListedBy(comps, id, n + 1) {
      if id in was {
        assert ListedBy(comps, id, n);
      } else {
        assert Lists(comps[n], id);
      }
    }
    forall id ensures ListFor(index, id) == Sharers(comps, id, n + 1) {
      assert ListFor(was, id) == Sharers(comps, id, n);
    }
  }

  lemma NothingIndexed<V>(comps: seq<Component<V>>)
    ensures Indexes(map[], comps, 0)
  {
  }

  method IndexComponent<V>(index: Index, comps: seq<Component<V>>, ci: nat) returns (r: Index)
    requires ci < |comps| && Indexes(index, comps, ci)
    ensures Indexes(r, comps, ci + 1)
  {
    r := IndexOne(index, Ids(comps[ci].hist), ci);
    IndexGrows(index, r, comps, ci);
  }

  /** For every historical id, the components that list it. */
  method IndexHist<V>(comps: seq<Component<V>>) returns (index: Index)
    ensures Indexes(index, comps, |comps|)
  {
    index := map[];
    NothingIndexed(comps);
    for ci := 0 to |comps|
      invariant Indexes(index, comps, ci)
    {
      index := IndexComponent(index, comps, ci);
    }
  }
}
