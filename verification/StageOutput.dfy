/** What stage s1 puts out, told cluster by cluster and verdict by verdict.
  *
  * The descriptions use the answers of the calls and the classes of similar points, and none of
  * the functions the stage is computed with; `ParallelPutsOut` holds for every schedule.
  */
module StageOutput {
  import opened Selection
  import opened Dedupe
  import opened Parallel
  import UnionFind
  import Clustering
  import opened MergeStage
  import opened Wrappers

  // ---------------------------------------------------------------------------------
  // One cluster

  /** What one verdict puts out: the fused point, embedded anew; the sources it names, in the order
    * of the cluster; nothing when the action is unknown. */
  ghost predicate VerdictPutsOut<V, E>(vd: Verdict, grp: seq<Point<V>>, calls: Calls<V, E>, block: seq<Point<V>>) {
    match vd.action
    case Merge => FusedInto(vd, calls, block)
    case Compose => FusedInto(vd, calls, block)
    case KeepSources => exists pos :: Picks(grp, pos, block) && SourcesAt(vd, grp, pos)
    case Unknown => block == []
  }

  ghost predicate FusedInto<V, E>(vd: Verdict, calls: Calls<V, E>, block: seq<Point<V>>) {
    |block| == 1 && block[0].candidate == vd.merged && calls.embed(calls.text(vd.merged)).Ok?
    && block[0].vec == calls.embed(calls.text(vd.merged)).value
  }

  /** The positions of the points whose topic the verdict names. */
  ghost predicate SourcesAt<V>(vd: Verdict, grp: seq<Point<V>>, pos: seq<nat>) {
    forall i: nat :: i in pos <==> i < |grp| && grp[i].candidate.topic in vd.sources
  }

  /** The positions of the points whose topic no verdict names. */
  ghost predicate UnnamedAt<V>(vds: seq<Verdict>, grp: seq<Point<V>>, pos: seq<nat>) {
    forall i: nat :: i in pos <==>
      i < |grp| && forall k :: 0 <= k < |vds| ==> grp[i].candidate.topic !in vds[k].sources
  }

  ghost predicate RestPutsOut<V>(vds: seq<Verdict>, grp: seq<Point<V>>, block: seq<Point<V>>) {
    exists pos :: Picks(grp, pos, block) && UnnamedAt(vds, grp, pos)
  }

  /** A merged cluster: one block per verdict, in order, and then the points no verdict names. */
  ghost predicate ClusterPutsOut<V, E>(grp: seq<Point<V>>, calls: Calls<V, E>, out: seq<Point<V>>) {
    && calls.chat(grp).Ok?
    && exists cuts :: BlocksPerVerdict(grp, calls, calls.chat(grp).value, cuts, out)
  }

  /** The `k`-th block of `out` is what the verdict puts out. */
  ghost predicate VerdictAt<V, E>(vd: Verdict, grp: seq<Point<V>>, calls: Calls<V, E>, out: seq<Point<V>>,
                                  cuts: seq<nat>, k: nat) {
    k + 1 < |cuts| && cuts[k] <= cuts[k+1] <= |out| && VerdictPutsOut(vd, grp, calls, out[cuts[k]..cuts[k+1]])
  }

  ghost predicate BlocksPerVerdict<V, E>(grp: seq<Point<V>>, calls: Calls<V, E>, vds: seq<Verdict>, cuts: seq<nat>,
                                         out: seq<Point<V>>) {
    && |cuts| == |vds| + 1 && cuts[0] == 0 && cuts[|vds|] <= |out|
    && (forall k :: 0 <= k < |vds| ==> VerdictAt(vds[k], grp, calls, out, cuts, k))
    && RestPutsOut(vds, grp, out[cuts[|vds|]..])
  }

  lemma EmitPutsOut<V, E>(vd: Verdict, grp: seq<Point<V>>, calls: Calls<V, E>)
    requires Emit(vd, grp, calls).Ok?
    ensures VerdictPutsOut(vd, grp, calls, Emit(vd, grp, calls).value)
  {
    if vd.action == KeepSources {
      KeepPicks(grp, NamedBy<V>(vd));
      assert SourcesAt(vd, grp, Where(grp, NamedBy<V>(vd), |grp|));
    }
  }

  lemma RestIs<V>(vds: seq<Verdict>, grp: seq<Point<V>>)
    ensures RestPutsOut(vds, grp, Keep(grp, Unclaimed<V>(vds), 0, |grp|))
  {
    KeepPicks(grp, Unclaimed<V>(vds));
    assert UnnamedAt(vds, grp, Where(grp, Unclaimed<V>(vds), |grp|));
  }

  /** The blocks of the first `n` verdicts. */
  ghost predicate BlocksTo<V, E>(grp: seq<Point<V>>, calls: Calls<V, E>, vds: seq<Verdict>, n: nat, cuts: seq<nat>,
                                 out: seq<Point<V>>)
    requires n <= |vds|
  {
    && |cuts| == n + 1 && cuts[0] == 0 && cuts[n] == |out|
    && forall k :: 0 <= k < n ==> VerdictAt(vds[k], grp, calls, out, cuts, k)
  }

  lemma VerdictStays<V, E>(vd: Verdict, grp: seq<Point<V>>, calls: Calls<V, E>, out: seq<Point<V>>, cuts: seq<nat>,
                           k: nat, more: seq<Point<V>>, ends: seq<nat>)
    requires VerdictAt(vd, grp, calls, out, cuts, k)
    ensures VerdictAt(vd, grp, calls, out + more, cuts + ends, k)
  {
    assert (out + more)[cuts[k]..cuts[k+1]] == out[cuts[k]..cuts[k+1]];
  }

  lemma VerdictAdded<V, E>(vd: Verdict, grp: seq<Point<V>>, calls: Calls<V, E>, out: seq<Point<V>>, cuts: seq<nat>,
                           n: nat, more: seq<Point<V>>)
    requires VerdictPutsOut(vd, grp, calls, more) && |cuts| == n + 1 && cuts[n] == |out|
    ensures VerdictAt(vd, grp, calls, out + more, cuts + [|out| + |more|], n)
  {
    assert (out + more)[|out|..|out| + |more|] == more;
  }

  lemma OneMoreVerdict<V, E>(grp: seq<Point<V>>, calls: Calls<V, E>, vds: seq<Verdict>, n: nat, cuts: seq<nat>,
                             out: seq<Point<V>>, more: seq<Point<V>>)
    requires n < |vds| && BlocksTo(grp, calls, vds, n, cuts, out) && VerdictPutsOut(vds[n], grp, calls, more)
    ensures BlocksTo(grp, calls, vds, n + 1, cuts + [|out| + |more|], out + more)
  {
    var c, all := cuts + [|out| + |more|], out + more;
    forall k | 0 <= k < n + 1 ensures VerdictAt(vds[k], grp, calls, all, c, k) {
      if k < n {
        VerdictStays(vds[k], grp, calls, out, cuts, k, more, [|out| + |more|]);
      } else {
        VerdictAdded(vds[n], grp, calls, out, cuts, n, more);
      }
    }
  }

  lemma {:induction false} EmitAllBlocks<V, E>(grp: seq<Point<V>>, calls: Calls<V, E>, vds: seq<Verdict>, n: nat)
    returns (cuts: seq<nat>)
    requires n <= |vds| && EmitAll(vds, n, grp, calls).Ok?
    ensures BlocksTo(grp, calls, vds, n, cuts, EmitAll(vds, n, grp, calls).value)
    decreases n
  {
    if n == 0 {
      cuts := [0];
    } else {
      var before, more := EmitAll(vds, n - 1, grp, calls).value, Emit(vds[n-1], grp, calls).value;
      cuts := EmitAllBlocks(grp, calls, vds, n - 1);
      EmitPutsOut(vds[n-1], grp, calls);
      OneMoreVerdict(grp, calls, vds, n - 1, cuts, before, more);
      cuts := cuts + [|before| + |more|];
    }
  }

  /** What a cluster is merged into. */
  lemma {:induction false} MergedPutsOut<V, E>(grp: seq<Point<V>>, calls: Calls<V, E>)
    requires Merged(grp, calls).Ok?
    ensures ClusterPutsOut(grp, calls, Merged(grp, calls).value)
  {
    var vds := calls.chat(grp).value;
    var first, rest := EmitAll(vds, |vds|, grp, calls).value, Keep(grp, Unclaimed<V>(vds), 0, |grp|);
    var cuts := EmitAllBlocks(grp, calls, vds, |vds|);
    RestIs(vds, grp);
    BlocksThenRest(grp, calls, vds, cuts, first, rest);
  }

  lemma BlocksThenRest<V, E>(grp: seq<Point<V>>, calls: Calls<V, E>, vds: seq<Verdict>, cuts: seq<nat>,
                             first: seq<Point<V>>, rest: seq<Point<V>>)
    requires BlocksTo(grp, calls, vds, |vds|, cuts, first) && RestPutsOut(vds, grp, rest)
    ensures BlocksPerVerdict(grp, calls, vds, cuts, first + rest)
  {
    var out := first + rest;
    assert cuts + [] == cuts;
    forall k | 0 <= k < |vds| ensures VerdictAt(vds[k], grp, calls, out, cuts, k) {
      VerdictStays(vds[k], grp, calls, first, cuts, k, rest, []);
    }
    assert out[cuts[|vds|]..] == rest;
  }

  // ---------------------------------------------------------------------------------
  // The whole stage

  /** Every candidate with the embedding of its text. */
  ghost predicate Embedded<V, E>(d: seq<Candidate>, calls: Calls<V, E>, pts: seq<Point<V>>) {
    |pts| == |d| && forall i :: 0 <= i < |d| ==>
      pts[i].candidate == d[i] && calls.embed(calls.text(d[i])) == Ok(pts[i].vec)
  }

  /** A cluster of one point comes out as it is; any other as what it is merged into. */
  ghost predicate GroupPutsOut<V, E>(grp: seq<Point<V>>, calls: Calls<V, E>, block: seq<Point<V>>) {
    if |grp| == 1 then block == grp else ClusterPutsOut(grp, calls, block)
  }

  /** The points at the given indices. */
  function At<V>(pts: seq<Point<V>>, g: seq<nat>): (r: seq<Point<V>>)
    requires forall k :: 0 <= k < |g| ==> g[k] < |pts|
    ensures |r| == |g| && forall k :: 0 <= k < |g| ==> r[k] == pts[g[k]]
  {
    Clustering.At(pts, g)
  }

  predicate Indexes(idx: seq<seq<nat>>, n: nat) {
    forall g, k :: 0 <= g < |idx| && 0 <= k < |idx[g]| ==> idx[g][k] < n
  }

  /** The `g`-th block of `out` is what comes out of the cluster. */
  ghost predicate GroupAt<V, E>(grp: seq<Point<V>>, calls: Calls<V, E>, out: seq<Point<V>>, cuts: seq<nat>, g: nat) {
    g + 1 < |cuts| && cuts[g] <= cuts[g+1] <= |out| && GroupPutsOut(grp, calls, out[cuts[g]..cuts[g+1]])
  }

  /** The output is one block per cluster, in cluster order and without a gap. */
  ghost predicate BlocksPerCluster<V, E>(pts: seq<Point<V>>, calls: Calls<V, E>, idx: seq<seq<nat>>, cuts: seq<nat>,
                                         out: seq<Point<V>>)
    requires Indexes(idx, |pts|)
  {
    && |cuts| == |idx| + 1 && cuts[0] == 0 && cuts[|idx|] == |out|
    && forall g :: 0 <= g < |idx| ==> GroupAt(At(pts, idx[g]), calls, out, cuts, g)
  }

  /** What the stage puts out for folded candidates `d`: embedded points, their clusters by
    * connected similarity, and a block for each. */
  ghost predicate StagePutsOut<V, E>(d: seq<Candidate>, calls: Calls<V, E>, clusterSim: real, pts: seq<Point<V>>,
                                     idx: seq<seq<nat>>, cuts: seq<nat>, out: seq<Point<V>>) {
    && Embedded(d, calls, pts)
    && UnionFind.IsComponentListing(|pts|, Similar(pts, calls, clusterSim), idx)
    && BlocksPerCluster(pts, calls, idx, cuts, out)
  }

  /** Two points are linked when their similarity exceeds the threshold. */
  function Similar<V, E>(pts: seq<Point<V>>, calls: Calls<V, E>, clusterSim: real): (nat, nat) -> bool {
    (i: nat, j: nat) => i < |pts| && j < |pts| &&
      calls.cosine(pts[i].vec, pts[j].vec) > if clusterSim > 0.0 then clusterSim else 0.6
  }

  lemma {:induction false} FlattenBlocks<T>(lists: seq<seq<T>>, n: nat) returns (cuts: seq<nat>)
    requires n <= |lists|
    ensures Blocks(Flatten(lists, n), cuts, lists[..n])
    decreases n
  {
    if n == 0 {
      NoBlocks<T>();
      cuts := [0];
    } else {
      var before := Flatten(lists, n - 1);
      cuts := FlattenBlocks(lists, n - 1);
      OneMoreBlock(before, cuts, lists[..n-1], lists[n-1]);
      assert lists[..n] == lists[..n-1] + [lists[n-1]];
      cuts := cuts + [|before| + |lists[n-1]|];
    }
  }

  /** Each list is what comes out of its cluster. */
  ghost predicate ListsMatch<V, E>(clusters: seq<seq<Point<V>>>, calls: Calls<V, E>, lists: seq<seq<Point<V>>>) {
    |lists| == |clusters| && forall g :: 0 <= g < |clusters| ==> GroupPutsOut(clusters[g], calls, lists[g])
  }

  lemma MergeAtPutsOut<V, E>(clusters: seq<seq<Point<V>>>, calls: Calls<V, E>, g: nat)
    requires g < |clusters| && MergeAt(clusters, calls)(g).Ok?
    ensures GroupPutsOut(clusters[g], calls, MergeAt(clusters, calls)(g).value)
  {
    if |clusters[g]| != 1 { MergedPutsOut(clusters[g], calls); }
  }

  lemma EmbedAtIs<V, E>(d: seq<Candidate>, calls: Calls<V, E>, pts: seq<Point<V>>)
    requires d != [] && |pts| == |d| && forall i: nat :: i < |d| ==> EmbedAt(d, calls)(i) == Ok(pts[i])
    ensures Embedded(d, calls, pts)
  {
    forall i | 0 <= i < |d| ensures pts[i].candidate == d[i] && calls.embed(calls.text(d[i])) == Ok(pts[i].vec) {
      assert EmbedAt(d, calls)(i) == EmbedPoint(d[i], calls);
    }
  }

  lemma SimilarIs<V, E>(pts: seq<Point<V>>, calls: Calls<V, E>, clusterSim: real, idx: seq<seq<nat>>)
    requires UnionFind.IsComponentListing(|pts|, Clustering.Over(Vecs(pts), calls.cosine, Threshold(clusterSim)), idx)
    ensures UnionFind.IsComponentListing(|pts|, Similar(pts, calls, clusterSim), idx)
  {
    var a, b := Clustering.Over(Vecs(pts), calls.cosine, Threshold(clusterSim)), Similar(pts, calls, clusterSim);
    assert forall i: nat, j: nat :: a(i, j) == b(i, j);
    UnionFind.SameLinks(|pts|, a, b, idx);
  }

  lemma Assembled<V, E>(d: seq<Candidate>, calls: Calls<V, E>, clusterSim: real, pts: seq<Point<V>>,
                        clusters: seq<seq<Point<V>>>, lists: seq<seq<Point<V>>>)
    returns (idx: seq<seq<nat>>, cuts: seq<nat>)
    requires Embedded(d, calls, pts) && IsClustering(pts, calls, clusterSim, clusters)
    requires ListsMatch(clusters, calls, lists)
    ensures StagePutsOut(d, calls, clusterSim, pts, idx, cuts, Flatten(lists, |lists|))
  {
    var linked := Clustering.Over(Vecs(pts), calls.cosine, Threshold(clusterSim));
    idx :| ListedBy(pts, linked, idx, clusters);
    SimilarIs(pts, calls, clusterSim, idx);
    cuts := FlattenBlocks(lists, |lists|);
    assert lists[..|lists|] == lists;
    var out := Flatten(lists, |lists|);
    forall g | 0 <= g < |idx| ensures GroupAt(At(pts, idx[g]), calls, out, cuts, g) {
      assert At(pts, idx[g]) == clusters[g] && BlockAt(out, cuts, g, lists[g]);
    }
  }

  /** What the serial stage returns is what the stage puts out. */
  lemma {:induction false} SerialPutsOut<V, E>(cands: seq<Candidate>, calls: Calls<V, E>, clusterSim: real,
                                               clusters: seq<seq<Point<V>>>, r: Result<seq<Point<V>>, E>)
    returns (pts: seq<Point<V>>, idx: seq<seq<nat>>, cuts: seq<nat>)
    requires SerialStage(cands, calls, clusterSim, clusters, r) && r.Ok?
    ensures Deduped(cands, calls.norm) == [] ==> r.value == []
    ensures Deduped(cands, calls.norm) != [] ==>
      StagePutsOut(Deduped(cands, calls.norm), calls, clusterSim, pts, idx, cuts, r.value)
  {
    var d := Deduped(cands, calls.norm);
    pts, idx, cuts := [], [], [];
    if d != [] {
      SerialIs(EmbedAt(d, calls), |d|);
      pts := Serial(EmbedAt(d, calls), |d|).value;
      EmbedAtIs(d, calls, pts);
      SerialIs(MergeAt(clusters, calls), |clusters|);
      var lists := Serial(MergeAt(clusters, calls), |clusters|).value;
      forall g | 0 <= g < |clusters| ensures GroupPutsOut(clusters[g], calls, lists[g]) {
        MergeAtPutsOut(clusters, calls, g);
      }
      idx, cuts := Assembled(d, calls, clusterSim, pts, clusters, lists);
    }
  }

  /** Whatever the schedule of both parallel sections, the stage puts out the same. */
  lemma {:induction false} ParallelPutsOut<V(!new), E(!new)>(
    cands: seq<Candidate>, calls: Calls<V, E>, clusterSim: real, maxConc: int, s1: State<Point<V>, E>,
    clusters: seq<seq<Point<V>>>, s2: State<seq<Point<V>>, E>, r: Result<seq<Point<V>>, E>)
    returns (pts: seq<Point<V>>, idx: seq<seq<nat>>, cuts: seq<nat>)
    requires ParallelStage(cands, calls, clusterSim, maxConc, s1, clusters, s2, r) && r.Ok?
    ensures Deduped(cands, calls.norm) == [] ==> r.value == []
    ensures Deduped(cands, calls.norm) != [] ==>
      StagePutsOut(Deduped(cands, calls.norm), calls, clusterSim, pts, idx, cuts, r.value)
  {
    var d := Deduped(cands, calls.norm);
    if d == [] { return [], [], []; }
    MapMatchesSerial(s1, EmbedAt(d, calls), |d|, maxConc);
    MapMatchesSerial(s2, MergeAt(clusters, calls), |clusters|, maxConc);
    pts, idx, cuts := SerialPutsOut(cands, calls, clusterSim, clusters, r);
  }

  // ---------------------------------------------------------------------------------
  // When the stage fails

  /** The request about the cluster fails, or embedding what a verdict fuses does. */
  ghost predicate ClusterFails<V, E>(grp: seq<Point<V>>, calls: Calls<V, E>) {
    calls.chat(grp).Err? || SomeFusionFails(calls.chat(grp).value, |calls.chat(grp).value|, calls)
  }

  ghost predicate SomeFusionFails<V, E>(vds: seq<Verdict>, n: nat, calls: Calls<V, E>)
    requires n <= |vds|
  {
    exists k :: 0 <= k < n && (vds[k].action == Merge || vds[k].action == Compose)
      && calls.embed(calls.text(vds[k].merged)).Err?
  }

  lemma {:induction false} EmitAllFailsIff<V, E>(vds: seq<Verdict>, n: nat, grp: seq<Point<V>>, calls: Calls<V, E>)
    requires n <= |vds|
    ensures EmitAll(vds, n, grp, calls).Err? <==> SomeFusionFails(vds, n, calls)
    decreases n
  {
    if n > 0 {
      EmitAllFailsIff(vds, n - 1, grp, calls);
      assert SomeFusionFails(vds, n, calls) <==> SomeFusionFails(vds, n - 1, calls) || Emit(vds[n-1], grp, calls).Err?;
    }
  }

  lemma MergedFailsIff<V, E>(grp: seq<Point<V>>, calls: Calls<V, E>)
    ensures Merged(grp, calls).Err? <==> ClusterFails(grp, calls)
  {
    if calls.chat(grp).Ok? { EmitAllFailsIff(calls.chat(grp).value, |calls.chat(grp).value|, grp, calls); }
  }

  ghost predicate EmbeddingFails<V, E>(d: seq<Candidate>, calls: Calls<V, E>) {
    exists i: nat :: i < |d| && calls.embed(calls.text(d[i])).Err?
  }

  ghost predicate MergingFails<V, E>(clusters: seq<seq<Point<V>>>, calls: Calls<V, E>) {
    exists g: nat :: g < |clusters| && |clusters[g]| != 1 && ClusterFails(clusters[g], calls)
  }

  lemma EmbeddingFailsIff<V, E>(d: seq<Candidate>, calls: Calls<V, E>)
    requires d != []
    ensures EmbeddingFails(d, calls) <==> Serial(EmbedAt(d, calls), |d|).Err?
  {
    SerialIs(EmbedAt(d, calls), |d|);
    forall i: nat | i < |d| ensures EmbedAt(d, calls)(i).Err? <==> calls.embed(calls.text(d[i])).Err? {
      assert EmbedAt(d, calls)(i) == EmbedPoint(d[i], calls);
    }
  }

  lemma MergingFailsIff<V, E>(clusters: seq<seq<Point<V>>>, calls: Calls<V, E>)
    ensures MergingFails(clusters, calls) <==> Serial(MergeAt(clusters, calls), |clusters|).Err?
  {
    SerialIs(MergeAt(clusters, calls), |clusters|);
    forall g: nat | g < |clusters|
      ensures MergeAt(clusters, calls)(g).Err? <==> |clusters[g]| != 1 && ClusterFails(clusters[g], calls)
    {
      MergedFailsIff(clusters[g], calls);
    }
  }

  /** Whatever the schedule, the stage fails exactly when an embedding, a request about a cluster
    * of several points or the embedding of a fused point fails. */
  lemma {:induction false} ParallelFailsIff<V(!new), E(!new)>(
    cands: seq<Candidate>, calls: Calls<V, E>, clusterSim: real, maxConc: int, s1: State<Point<V>, E>,
    clusters: seq<seq<Point<V>>>, s2: State<seq<Point<V>>, E>, r: Result<seq<Point<V>>, E>)
    requires ParallelStage(cands, calls, clusterSim, maxConc, s1, clusters, s2, r)
    ensures r.Err? <==>
      Deduped(cands, calls.norm) != [] &&
      (EmbeddingFails(Deduped(cands, calls.norm), calls) || MergingFails(clusters, calls))
  {
    var d := Deduped(cands, calls.norm);
    if d != [] {
      MapMatchesSerial(s1, EmbedAt(d, calls), |d|, maxConc);
      EmbeddingFailsIff(d, calls);
      if s1.first.None? {
        MapMatchesSerial(s2, MergeAt(clusters, calls), |clusters|, maxConc);
        MergingFailsIff(clusters, calls);
      }
    }
  }

  /** A candidate linked to no other comes out as it was embedded, once. */
  lemma {:induction false} LoneCandidateComesOut<V, E>(d: seq<Candidate>, calls: Calls<V, E>, clusterSim: real,
                                                       pts: seq<Point<V>>, idx: seq<seq<nat>>, cuts: seq<nat>,
                                                       out: seq<Point<V>>, i: nat) returns (g: nat)
    requires StagePutsOut(d, calls, clusterSim, pts, idx, cuts, out) && i < |d|
    requires forall j: nat :: j < |d| && j != i ==> !UnionFind.Adjacent(Similar(pts, calls, clusterSim), i, j)
    ensures g < |idx| && idx[g] == [i] && BlockAt(out, cuts, g, [pts[i]])
    ensures forall h :: 0 <= h < |idx| && i in idx[h] ==> h == g
  {
    var linked := Similar(pts, calls, clusterSim);
    assert UnionFind.Listed(idx, i);
    g :| 0 <= g < |idx| && i in idx[g];
    UnionFind.AloneInGroup(|pts|, linked, idx, g, i);
    assert At(pts, idx[g]) == [pts[i]] && GroupAt(At(pts, idx[g]), calls, out, cuts, g);
    UnionFind.ConnectedRefl(|pts|, linked, i);
  }
}
