/** The two flat clustering passes: s1's merge clusters and the wiki write groups.
  *
  * Both link pairs by cosine similarity and read off connected classes.  Cosine is a
  * parameter: the results hold for every function of two vectors, and `SymmetricLinks`
  * says what symmetry adds.
  */
module Clustering {
  import opened UnionFind
  import opened Selection
  import opened Wrappers

  /** Pairs `(i, j)`, tested with the smaller index first, whose similarity exceeds the threshold. */
  function Over<V>(vecs: seq<V>, cosine: (V, V) -> real, threshold: real): (nat, nat) -> bool {
    (i: nat, j: nat) => i < |vecs| && j < |vecs| && cosine(vecs[i], vecs[j]) > threshold
  }

  /** With a symmetric cosine, the scan order of the pairs does not matter. */
  lemma SymmetricLinks<V(!new)>(vecs: seq<V>, cosine: (V, V) -> real, threshold: real, a: nat, b: nat)
    requires forall x, y :: cosine(x, y) == cosine(y, x)
    requires a < |vecs| && b < |vecs|
    ensures Adjacent(Over(vecs, cosine, threshold), a, b) <==> a != b && cosine(vecs[a], vecs[b]) > threshold
  {
  }

  datatype Point<V> = Point(topic: string, vec: V)

  function Vecs<V>(pts: seq<Point<V>>): seq<V> {
    seq(|pts|, i requires 0 <= i < |pts| => pts[i].vec)
  }

  function At<T>(items: seq<T>, idx: seq<nat>): (r: seq<T>)
    requires forall k :: 0 <= k < |idx| ==> idx[k] < |items|
    ensures |r| == |idx| && forall k :: 0 <= k < |idx| ==> r[k] == items[idx[k]]
  {
    seq(|idx|, k requires 0 <= k < |idx| && idx[k] < |items| => items[idx[k]])
  }

  /** s1's similarity clusters.  `idx` lists the positions of the points in each cluster. */
  method ConnectedComponents<V>(pts: seq<Point<V>>, cosine: (V, V) -> real, threshold: real)
    returns (out: seq<seq<Point<V>>>, ghost idx: seq<seq<nat>>)
    ensures IsComponentListing(|pts|, Over(Vecs(pts), cosine, threshold), idx)
    ensures |out| == |idx| && forall g :: 0 <= g < |out| ==>
      |out[g]| == |idx[g]| && forall k :: 0 <= k < |idx[g]| ==> out[g][k] == pts[idx[g][k]]
  {
    var groups := Components(|pts|, Over(Vecs(pts), cosine, threshold));
    idx := groups;
    out := [];
    var g := 0;
    while g < |groups|
      invariant 0 <= g == |out| <= |groups|
      invariant forall h :: 0 <= h < g ==>
        |out[h]| == |idx[h]| && forall k :: 0 <= k < |idx[h]| ==> out[h][k] == pts[idx[h][k]]
    {
      var comp := [];
      var k := 0;
      while k < |groups[g]|
        invariant 0 <= k == |comp| <= |groups[g]|
        invariant forall m :: 0 <= m < k ==> comp[m] == pts[groups[g][m]]
      {
        comp := comp + [pts[groups[g][k]]];
        k := k + 1;
      }
      out := out + [comp];
      g := g + 1;
    }
  }

  // ---------------------------------------------------------------------------------
  // Wiki write groups: points without a vector stay alone

  /** The vector index's answer for one point. */
  datatype Lookup<+V> = Found(vec: V) | Missing | Failed

  datatype Grouping = Grouping(clusters: seq<seq<nat>>, isolated: seq<nat>) | LookupError

  /** The stored vector, else the embedding of the name, else nothing. */
  function Resolve<V>(stored: Lookup<V>, embedded: Option<V>): Option<V> {
    if stored.Found? then Some(stored.vec) else embedded
  }

  function AtLeast<V>(vecs: seq<Option<V>>, cosine: (V, V) -> real, threshold: real): (nat, nat) -> bool {
    (i: nat, j: nat) => i < |vecs| && j < |vecs| && vecs[i].Some? && vecs[j].Some? &&
      cosine(vecs[i].value, vecs[j].value) >= threshold
  }

  function Threshold(given: real): (r: real)
    ensures r == if given > 0.0 then given else 0.75
  {
    if given <= 0.0 then 0.75 else given
  }

  function Larger(groups: seq<seq<nat>>): seq<seq<nat>> {
    if groups == [] then []
    else Larger(groups[..|groups|-1]) + if |groups[|groups|-1]| == 1 then [] else [groups[|groups|-1]]
  }

  function Singles(groups: seq<seq<nat>>): seq<nat> {
    if groups == [] then []
    else Singles(groups[..|groups|-1]) + if |groups[|groups|-1]| == 1 then groups[|groups|-1] else []
  }

  ghost predicate AnyFailed<V>(stored: seq<Lookup<V>>, n: nat)
    requires n <= |stored|
  {
    exists i :: 0 <= i < n && stored[i].Failed?
  }

  function Resolved<V>(stored: seq<Lookup<V>>, embedded: seq<Option<V>>): (r: seq<Option<V>>)
    requires |stored| == |embedded|
    ensures |r| == |stored|
    ensures forall i :: 0 <= i < |stored| ==>
      r[i] == match stored[i] case Found(v) => Some(v) case _ => embedded[i]
  {
    seq(|stored|, i requires 0 <= i < |stored| && |stored| == |embedded| => Resolve(stored[i], embedded[i]))
  }

  /** Groups the points to write together.  The ghost `idx` is the listing of all classes. */
  method GroupByCluster<V>(stored: seq<Lookup<V>>, embedded: seq<Option<V>>, cosine: (V, V) -> real, groupSim: real)
    returns (r: Grouping, ghost idx: seq<seq<nat>>)
    requires |stored| == |embedded|
    ensures r.LookupError? <==> AnyFailed(stored, |stored|)
    ensures r.Grouping? ==>
      && IsComponentListing(|stored|, AtLeast(Resolved(stored, embedded), cosine, Threshold(groupSim)), idx)
      && r.clusters == Larger(idx) && r.isolated == Singles(idx)
  {
    idx := [];
    var n := |stored|;
    var vecs: seq<Option<V>> := [];
    var i := 0;
    while i < n
      invariant 0 <= i <= n
      invariant !AnyFailed(stored, i) && vecs == Resolved(stored, embedded)[..i]
    {
      if stored[i].Failed? {
        return LookupError, idx;
      }
      vecs := vecs + [Resolve(stored[i], embedded[i])];
      i := i + 1;
    }
    assert vecs == Resolved(stored, embedded);
    var groups := Components(n, AtLeast(vecs, cosine, Threshold(groupSim)));
    idx := groups;
    var clusters, isolated := [], [];
    var g := 0;
    while g < |groups|
      invariant 0 <= g <= |groups|
      invariant clusters == Larger(groups[..g]) && isolated == Singles(groups[..g])
    {
      assert groups[..g+1][..g] == groups[..g];
      if |groups[g]| == 1 {
        assert groups[g] == [groups[g][0]];
        isolated := isolated + [groups[g][0]];
      } else {
        clusters := clusters + [groups[g]];
      }
      g := g + 1;
    }
    assert groups[..g] == groups;
    r := Grouping(clusters, isolated);
  }

  /** With a symmetric cosine two distinct points go together when both have a vector and their
    * similarity reaches the threshold. */
  lemma SymmetricGroups<V(!new)>(vecs: seq<Option<V>>, cosine: (V, V) -> real, threshold: real, a: nat, b: nat)
    requires forall x, y :: cosine(x, y) == cosine(y, x)
    requires a < |vecs| && b < |vecs|
    ensures Adjacent(AtLeast(vecs, cosine, threshold), a, b) <==>
      a != b && vecs[a].Some? && vecs[b].Some? && cosine(vecs[a].value, vecs[b].value) >= threshold
  {
  }

  /** The groups of several points, those of one left blank. */
  function Several(groups: seq<seq<nat>>): (r: seq<Option<seq<nat>>>)
    ensures |r| == |groups|
    ensures forall g :: 0 <= g < |groups| ==> r[g] == if |groups[g]| == 1 then None else Some(groups[g])
  {
    seq(|groups|, g requires 0 <= g < |groups| => if |groups[g]| == 1 then None else Some(groups[g]))
  }

  /** The clusters are the groups of several points, all of them and in order. */
  lemma {:induction false} LargerAre(groups: seq<seq<nat>>)
    ensures Somes(Several(groups), Larger(groups))
    ensures forall g :: g in Larger(groups) <==> g in groups && |g| != 1
  {
    LargerIsPresent(groups);
    PresentIs(Several(groups));
    forall g ensures g in Larger(groups) <==> g in groups && |g| != 1 { LargerHolds(groups, g); }
  }

  lemma {:induction false} LargerHolds(groups: seq<seq<nat>>, g: seq<nat>)
    ensures g in Larger(groups) <==> g in groups && |g| != 1
  {
    if groups != [] {
      LargerHolds(groups[..|groups|-1], g);
      assert groups == groups[..|groups|-1] + [groups[|groups|-1]];
    }
  }

  lemma {:induction false} LargerIsPresent(groups: seq<seq<nat>>)
    ensures Larger(groups) == Present(Several(groups))
  {
    if groups != [] {
      var front, g := groups[..|groups|-1], groups[|groups|-1];
      var o: Option<seq<nat>> := if |g| == 1 then None else Some(g);
      LargerIsPresent(front);
      assert Several(groups) == Several(front) + [o];
      PresentMore(Several(front), o);
      assert Larger(front) + [] == Larger(front);
    }
  }

  lemma {:induction false} SinglesAre(groups: seq<seq<nat>>, x: nat)
    ensures x in Singles(groups) <==> [x] in groups
  {
    if groups != [] {
      var front, last := groups[..|groups|-1], groups[|groups|-1];
      SinglesAre(front, x);
      assert [x] in groups <==> [x] in front || last == [x];
      if |last| == 1 { assert last == [last[0]]; }
    }
  }

  lemma NoVectorNoLink<V>(vecs: seq<Option<V>>, cosine: (V, V) -> real, threshold: real, p: seq<nat>)
    requires Path(|vecs|, AtLeast(vecs, cosine, threshold), p) && vecs[p[0]].None?
    ensures |p| == 1
  {
    var next := if |p| > 1 then p[1] else p[0];
    assert !Adjacent(AtLeast(vecs, cosine, threshold), p[0], next);
  }

  /** A point with neither a stored vector nor an embedding always gets its own write loop. */
  lemma NoVectorIsolated<V>(vecs: seq<Option<V>>, cosine: (V, V) -> real, threshold: real,
                            idx: seq<seq<nat>>, x: nat)
    requires IsComponentListing(|vecs|, AtLeast(vecs, cosine, threshold), idx)
    requires x < |vecs| && vecs[x].None?
    ensures x in Singles(idx)
  {
    var linked := AtLeast(vecs, cosine, threshold);
    assert Listed(idx, x);
    var g :| 0 <= g < |idx| && x in idx[g];
    forall y | y in idx[g] ensures y == x {
      assert Connected(|vecs|, linked, x, y);
      var p :| PathFrom(|vecs|, linked, p, x, y);
      NoVectorNoLink(vecs, cosine, threshold, p);
    }
    var second := if |idx[g]| > 1 then idx[g][1] else idx[g][0];
    assert idx[g][0] in idx[g] && second in idx[g];
    assert idx[g] == [x];
    SinglesAre(idx, x);
  }
}
