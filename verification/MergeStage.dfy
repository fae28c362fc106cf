/** Stage s1: fold identical topics, embed, cluster, and merge each cluster.
  *
  * Embedding and merging run in parallel; `SameAsSerial` shows that no schedule changes the
  * result.  The model's answers and the embedding are parameters.
  */
module MergeStage {
  import opened Selection
  import opened Dedupe
  import opened Parallel
  import UnionFind
  import Clustering
  import opened Wrappers

  datatype Point<V> = Point(candidate: Candidate, vec: V)

  datatype Action = Merge | Compose | KeepSources | Unknown

  /** One answer about a cluster: what to do with the sources it names. */
  datatype Verdict = Verdict(action: Action, sources: seq<string>, merged: Candidate)

  /** What the stage calls: topic normalisation, the text embedded for a candidate, the
    * embedding, the similarity, and the model's answer about a cluster. */
  datatype Calls<!V, E> = Calls(norm: Norm, text: Candidate -> string, embed: string -> Result<V, E>,
                                cosine: (V, V) -> real, chat: seq<Point<V>> -> Result<seq<Verdict>, E>)

  // ---------------------------------------------------------------------------------
  // One cluster

  function EmbedPoint<V, E>(c: Candidate, calls: Calls<V, E>): Result<Point<V>, E> {
    match calls.embed(calls.text(c))
    case Ok(v) => Ok(Point(c, v))
    case Err(e) => Err(e)
  }

  function NamedBy<V>(vd: Verdict): Point<V> -> bool {
    (p: Point<V>) => p.candidate.topic in vd.sources
  }

  /** The points a verdict puts out. */
  function Emit<V, E>(vd: Verdict, grp: seq<Point<V>>, calls: Calls<V, E>): Result<seq<Point<V>>, E> {
    match vd.action
    case Unknown => Ok([])
    case KeepSources => Ok(Keep(grp, NamedBy<V>(vd), 0, |grp|))
    case _ =>
      match EmbedPoint(vd.merged, calls)
      case Ok(p) => Ok([p])
      case Err(e) => Err(e)
  }

  /** The points of the first `n` verdicts, or the first failure among them. */
  function EmitAll<V, E>(vds: seq<Verdict>, n: nat, grp: seq<Point<V>>, calls: Calls<V, E>): Result<seq<Point<V>>, E>
    requires n <= |vds|
    decreases n
  {
    if n == 0 then Ok([])
    else match EmitAll(vds, n - 1, grp, calls)
      case Err(e) => Err(e)
      case Ok(out) =>
        match Emit(vds[n-1], grp, calls)
        case Err(e) => Err(e)
        case Ok(more) => Ok(out + more)
  }

  predicate Consumed(vds: seq<Verdict>, n: nat, topic: string)
    requires n <= |vds|
  {
    exists i :: 0 <= i < n && topic in vds[i].sources
  }

  function Unclaimed<V>(vds: seq<Verdict>): Point<V> -> bool {
    (p: Point<V>) => !Consumed(vds, |vds|, p.candidate.topic)
  }

  function Merged<V, E>(grp: seq<Point<V>>, calls: Calls<V, E>): Result<seq<Point<V>>, E> {
    match calls.chat(grp)
    case Err(e) => Err(e)
    case Ok(vds) =>
      match EmitAll(vds, |vds|, grp, calls)
      case Err(e) => Err(e)
      case Ok(out) => Ok(out + Keep(grp, Unclaimed<V>(vds), 0, |grp|))
  }

  method ApplyVerdict<V, E>(vd: Verdict, grp: seq<Point<V>>, calls: Calls<V, E>) returns (r: Result<seq<Point<V>>, E>)
    ensures r == Emit(vd, grp, calls)
  {
    match vd.action {
      case Unknown =>
        r := Ok([]);
      case KeepSources =>
        var kept: seq<Point<V>> := [];
        for k := 0 to |grp|
          invariant kept == Keep(grp, NamedBy<V>(vd), 0, k)
        {
          if grp[k].candidate.topic in vd.sources {
            kept := kept + [grp[k]];
          }
        }
        r := Ok(kept);
      case _ =>
        var v := calls.embed(calls.text(vd.merged));
        r := if v.Err? then Err(v.error) else Ok([Point(vd.merged, v.value)]);
    }
  }

  /** One request per cluster; then every verdict in turn, then the points no verdict names. */
  method MergeCluster<V, E>(grp: seq<Point<V>>, calls: Calls<V, E>) returns (r: Result<seq<Point<V>>, E>)
    ensures r == Merged(grp, calls)
  {
    var answer := calls.chat(grp);
    if answer.Err? { return Err(answer.error); }
    var vds := answer.value;
    var out: seq<Point<V>> := [];
    var consumed: set<string> := {};
    for n := 0 to |vds|
      invariant EmitAll(vds, n, grp, calls) == Ok(out)
      invariant forall t :: t in consumed <==> Consumed(vds, n, t)
    {
      ConsumedGrows(vds, n + 1);
      consumed := consumed + set s | s in vds[n].sources;
      var more := ApplyVerdict(vds[n], grp, calls);
      if more.Err? {
        EmitFails(vds, n + 1, |vds|, grp, calls);
        return Err(more.error);
      }
      out := out + more.value;
    }
    var rest: seq<Point<V>> := [];
    for k := 0 to |grp|
      invariant rest == Keep(grp, Unclaimed<V>(vds), 0, k)
    {
      if grp[k].candidate.topic !in consumed {
        rest := rest + [grp[k]];
      }
    }
    r := Ok(out + rest);
  }

  lemma ConsumedGrows(vds: seq<Verdict>, n: nat)
    requires 0 < n <= |vds|
    ensures forall t :: Consumed(vds, n, t) <==> Consumed(vds, n - 1, t) || t in vds[n-1].sources
  {
    forall t ensures Consumed(vds, n, t) <==> Consumed(vds, n - 1, t) || t in vds[n-1].sources {}
  }

  lemma {:induction false} EmitFails<V, E>(vds: seq<Verdict>, n: nat, m: nat, grp: seq<Point<V>>, calls: Calls<V, E>)
    requires n <= m <= |vds| && EmitAll(vds, n, grp, calls).Err?
    ensures EmitAll(vds, m, grp, calls) == EmitAll(vds, n, grp, calls)
    decreases m
  {
    if n < m { EmitFails(vds, n, m - 1, grp, calls); }
  }

  /** Some verdict with the given action names the topic. */
  predicate NamedFor(vds: seq<Verdict>, topic: string, a: Action) {
    exists i :: 0 <= i < |vds| && vds[i].action == a && topic in vds[i].sources
  }

  lemma {:induction false} KeptIsEmitted<V, E>(vds: seq<Verdict>, n: nat, grp: seq<Point<V>>, calls: Calls<V, E>,
                                               i: nat, p: Point<V>)
    requires i < n <= |vds| && EmitAll(vds, n, grp, calls).Ok?
    requires vds[i].action == KeepSources && p in grp && p.candidate.topic in vds[i].sources
    ensures p in EmitAll(vds, n, grp, calls).value
    decreases n
  {
    if i < n - 1 {
      KeptIsEmitted(vds, n - 1, grp, calls, i, p);
    } else {
      KeepHolds(grp, NamedBy<V>(vds[i]), |grp|, p);
    }
  }

  /** Some merge or compose verdict puts out exactly the point `p`. */
  predicate Remade<V(==), E(==)>(vds: seq<Verdict>, n: nat, calls: Calls<V, E>, p: Point<V>)
    requires n <= |vds|
  {
    exists i :: 0 <= i < n && (vds[i].action == Merge || vds[i].action == Compose)
      && EmbedPoint(vds[i].merged, calls) == Ok(p)
  }

  lemma {:induction false} RemadeIsEmitted<V, E>(vds: seq<Verdict>, n: nat, grp: seq<Point<V>>,
                                                 calls: Calls<V, E>, p: Point<V>)
    requires n <= |vds| && EmitAll(vds, n, grp, calls).Ok? && Remade(vds, n, calls, p)
    ensures p in EmitAll(vds, n, grp, calls).value
    decreases n
  {
    if Remade(vds, n - 1, calls, p) {
      RemadeIsEmitted(vds, n - 1, grp, calls, p);
    } else {
      assert Emit(vds[n-1], grp, calls) == Ok([p]);
    }
  }

  lemma {:induction false} EmittedIs<V, E>(vds: seq<Verdict>, n: nat, grp: seq<Point<V>>,
                                           calls: Calls<V, E>, p: Point<V>)
    requires n <= |vds| && EmitAll(vds, n, grp, calls).Ok? && p in EmitAll(vds, n, grp, calls).value
    ensures NamedFor(vds, p.candidate.topic, KeepSources) || Remade(vds, n, calls, p)
    decreases n
  {
    if p in EmitAll(vds, n - 1, grp, calls).value {
      EmittedIs(vds, n - 1, grp, calls, p);
    } else {
      KeepHolds(grp, NamedBy<V>(vds[n-1]), |grp|, p);
      assert Emit(vds[n-1], grp, calls).Ok? && p in Emit(vds[n-1], grp, calls).value;
    }
  }

  /** A point of the cluster comes out exactly when no verdict claims it, or one keeps it, or a
    * merge or compose verdict makes it anew. */
  lemma KeptIff<V, E>(grp: seq<Point<V>>, calls: Calls<V, E>, p: Point<V>)
    requires p in grp && calls.chat(grp).Ok? && Merged(grp, calls).Ok?
    ensures var vds := calls.chat(grp).value;
      p in Merged(grp, calls).value <==>
        !Consumed(vds, |vds|, p.candidate.topic)
        || NamedFor(vds, p.candidate.topic, KeepSources)
        || Remade(vds, |vds|, calls, p)
  {
    var vds := calls.chat(grp).value;
    KeepHolds(grp, Unclaimed<V>(vds), |grp|, p);
    assert grp[..|grp|] == grp;
    if NamedFor(vds, p.candidate.topic, KeepSources) {
      var i :| 0 <= i < |vds| && vds[i].action == KeepSources && p.candidate.topic in vds[i].sources;
      KeptIsEmitted(vds, |vds|, grp, calls, i, p);
    }
    if Remade(vds, |vds|, calls, p) { RemadeIsEmitted(vds, |vds|, grp, calls, p); }
    if p in EmitAll(vds, |vds|, grp, calls).value { EmittedIs(vds, |vds|, grp, calls, p); }
  }

  /** Every verdict naming the topic asks for something the stage does not know. */
  predicate OnlyUnknown(vds: seq<Verdict>, topic: string) {
    forall i :: 0 <= i < |vds| && topic in vds[i].sources ==> vds[i].action == Unknown
  }

  lemma OnlyUnknownIff(vds: seq<Verdict>, topic: string)
    ensures OnlyUnknown(vds, topic) <==>
            !NamedFor(vds, topic, KeepSources) && !NamedFor(vds, topic, Merge) && !NamedFor(vds, topic, Compose)
  {
    if !OnlyUnknown(vds, topic) {
      var i :| 0 <= i < |vds| && topic in vds[i].sources && vds[i].action != Unknown;
      assert NamedFor(vds, topic, vds[i].action);
    }
  }

  /** A point of the cluster is lost without a trace, neither put out nor folded into a merge or
    * composition, exactly when verdicts name it, all of them unknown, and none makes it anew. */
  lemma LostIff<V, E>(grp: seq<Point<V>>, calls: Calls<V, E>, p: Point<V>)
    requires p in grp && calls.chat(grp).Ok? && Merged(grp, calls).Ok?
    ensures var vds, t := calls.chat(grp).value, p.candidate.topic;
      p !in Merged(grp, calls).value && !NamedFor(vds, t, Merge) && !NamedFor(vds, t, Compose) <==>
        Consumed(vds, |vds|, t) && OnlyUnknown(vds, t) && !Remade(vds, |vds|, calls, p)
  {
    KeptIff(grp, calls, p);
    OnlyUnknownIff(calls.chat(grp).value, p.candidate.topic);
  }

  // ---------------------------------------------------------------------------------
  // The whole stage, one call at a time

  /** The results of `f` in order, or the first failure. */
  function Serial<T, E>(f: nat -> Result<T, E>, n: nat): Result<seq<T>, E> {
    if n == 0 then Ok([])
    else match Serial(f, n - 1)
      case Err(e) => Err(e)
      case Ok(xs) => match f(n - 1) case Ok(x) => Ok(xs + [x]) case Err(e) => Err(e)
  }

  function EmbedAt<V, E>(cands: seq<Candidate>, calls: Calls<V, E>): nat -> Result<Point<V>, E>
    requires cands != []
  {
    (i: nat) => EmbedPoint(cands[if i < |cands| then i else 0], calls)
  }

  function MergeAt<V, E>(clusters: seq<seq<Point<V>>>, calls: Calls<V, E>): nat -> Result<seq<Point<V>>, E> {
    (i: nat) => if i < |clusters| && |clusters[i]| != 1 then Merged(clusters[i], calls)
                else Ok(if i < |clusters| then clusters[i] else [])
  }

  function Vecs<V>(pts: seq<Point<V>>): seq<V> {
    seq(|pts|, i requires 0 <= i < |pts| => pts[i].vec)
  }

  const DEFAULT_SIM := 0.6

  function Threshold(clusterSim: real): real {
    if clusterSim <= 0.0 then DEFAULT_SIM else clusterSim
  }

  /** The clusters are the points at the listed indices. */
  predicate PicksOut<V(==)>(pts: seq<Point<V>>, idx: seq<seq<nat>>, clusters: seq<seq<Point<V>>>)
    requires forall g, i :: 0 <= g < |idx| && 0 <= i < |idx[g]| ==> idx[g][i] < |pts|
  {
    |clusters| == |idx| && forall g :: 0 <= g < |idx| ==> clusters[g] == Clustering.At(pts, idx[g])
  }

  ghost predicate ListedBy<V>(pts: seq<Point<V>>, linked: (nat, nat) -> bool, idx: seq<seq<nat>>,
                              clusters: seq<seq<Point<V>>>) {
    UnionFind.IsComponentListing(|pts|, linked, idx) && PicksOut(pts, idx, clusters)
  }

  /** The points grouped by connected similarity, in order. */
  ghost predicate IsClustering<V, E>(pts: seq<Point<V>>, calls: Calls<V, E>, clusterSim: real,
                                     clusters: seq<seq<Point<V>>>) {
    var linked := Clustering.Over(Vecs(pts), calls.cosine, Threshold(clusterSim));
    exists idx :: ListedBy(pts, linked, idx, clusters)
  }

  /** The first `n` lists, one after the other. */
  function Flatten<T>(lists: seq<seq<T>>, n: nat): seq<T>
    requires n <= |lists|
    decreases n
  {
    if n == 0 then [] else Flatten(lists, n - 1) + lists[n-1]
  }

  ghost predicate SerialStage<V, E>(cands: seq<Candidate>, calls: Calls<V, E>, clusterSim: real,
                                    clusters: seq<seq<Point<V>>>, r: Result<seq<Point<V>>, E>) {
    var d := Deduped(cands, calls.norm);
    if d == [] then r == Ok([])
    else match Serial(EmbedAt(d, calls), |d|)
      case Err(e) => r == Err(e)
      case Ok(pts) =>
        && IsClustering(pts, calls, clusterSim, clusters)
        && match Serial(MergeAt(clusters, calls), |clusters|)
           case Err(e) => r == Err(e)
           case Ok(lists) => r == Ok(Flatten(lists, |lists|))
  }

  lemma {:induction false} SerialIs<T, E>(f: nat -> Result<T, E>, n: nat)
    ensures Serial(f, n).Ok? <==> forall i: nat :: i < n ==> f(i).Ok?
    ensures Serial(f, n).Ok? ==>
      |Serial(f, n).value| == n && forall i: nat :: i < n ==> f(i) == Ok(Serial(f, n).value[i])
    ensures Serial(f, n).Err? ==> FailsWith(f, n, Serial(f, n).error)
    decreases n
  {
    if n > 0 {
      SerialIs(f, n - 1);
      assert Serial(f, n - 1).Err? ==> FailsWith(f, n - 1, Serial(f, n - 1).error);
      if Serial(f, n).Err? {
        var i: nat :| i < n && f(i) == Err(Serial(f, n).error);
      }
    }
  }

  method EmbedSerially<V, E>(d: seq<Candidate>, calls: Calls<V, E>) returns (r: Result<seq<Point<V>>, E>)
    requires d != []
    ensures r == Serial(EmbedAt(d, calls), |d|)
  {
    var pts: seq<Point<V>> := [];
    for n := 0 to |d|
      invariant Serial(EmbedAt(d, calls), n) == Ok(pts)
    {
      assert EmbedAt(d, calls)(n) == EmbedPoint(d[n], calls);
      var v := calls.embed(calls.text(d[n]));
      if v.Err? {
        SerialFails(EmbedAt(d, calls), n + 1, |d|);
        return Err(v.error);
      }
      pts := pts + [Point(d[n], v.value)];
    }
    r := Ok(pts);
  }

  method MergeSerially<V, E>(clusters: seq<seq<Point<V>>>, calls: Calls<V, E>)
    returns (r: Result<seq<seq<Point<V>>>, E>)
    ensures r == Serial(MergeAt(clusters, calls), |clusters|)
  {
    var lists: seq<seq<Point<V>>> := [];
    for n := 0 to |clusters|
      invariant Serial(MergeAt(clusters, calls), n) == Ok(lists)
    {
      if |clusters[n]| == 1 {
        lists := lists + [clusters[n]];
        continue;
      }
      var merged := MergeCluster(clusters[n], calls);
      if merged.Err? {
        SerialFails(MergeAt(clusters, calls), n + 1, |clusters|);
        return Err(merged.error);
      }
      lists := lists + [merged.value];
    }
    r := Ok(lists);
  }

  /** The stage run serially: one embedding and one merge at a time. */
  method DedupeMergeSerially<V, E>(cands: seq<Candidate>, calls: Calls<V, E>, clusterSim: real)
    returns (r: Result<seq<Point<V>>, E>, ghost clusters: seq<seq<Point<V>>>)
    ensures SerialStage(cands, calls, clusterSim, clusters, r)
  {
    clusters := [];
    var d := DedupeAll(cands, calls.norm);
    if |d| == 0 { return Ok([]), clusters; }
    var pts := EmbedSerially(d, calls);
    if pts.Err? { return Err(pts.error), clusters; }
    var groups := ClusterPoints(pts.value, calls, clusterSim);
    clusters := groups;
    var lists := MergeSerially(groups, calls);
    if lists.Err? { return Err(lists.error), clusters; }
    var out: seq<Point<V>> := [];
    for n := 0 to |lists.value|
      invariant out == Flatten(lists.value, n)
    {
      out := out + lists.value[n];
    }
    r := Ok(out);
  }

  lemma {:induction false} SerialFails<T, E>(f: nat -> Result<T, E>, n: nat, m: nat)
    requires n <= m && Serial(f, n).Err?
    ensures Serial(f, m) == Serial(f, n)
    decreases m
  {
    if n < m { SerialFails(f, n, m - 1); }
  }

  method ClusterPoints<V, E>(pts: seq<Point<V>>, calls: Calls<V, E>, clusterSim: real)
    returns (clusters: seq<seq<Point<V>>>)
    ensures IsClustering(pts, calls, clusterSim, clusters)
  {
    ghost var linked := Clustering.Over(Vecs(pts), calls.cosine, Threshold(clusterSim));
    var idx := UnionFind.Components(|pts|, Clustering.Over(Vecs(pts), calls.cosine, Threshold(clusterSim)));
    clusters := [];
    for g := 0 to |idx|
      invariant |clusters| == g
      invariant forall h :: 0 <= h < g ==> clusters[h] == Clustering.At(pts, idx[h])
    {
      clusters := clusters + [Clustering.At(pts, idx[g])];
    }
    assert ListedBy(pts, linked, idx, clusters);
  }

  lemma PickedUnique<V>(pts: seq<Point<V>>, linked: (nat, nat) -> bool, x: seq<seq<nat>>, y: seq<seq<nat>>,
                        a: seq<seq<Point<V>>>, b: seq<seq<Point<V>>>)
    requires ListedBy(pts, linked, x, a) && ListedBy(pts, linked, y, b)
    ensures a == b
  {
    UnionFind.ListingUnique(|pts|, linked, x, y);
  }

  lemma {:induction false} ClusteringUnique<V, E>(pts: seq<Point<V>>, calls: Calls<V, E>, clusterSim: real,
                                                  a: seq<seq<Point<V>>>, b: seq<seq<Point<V>>>)
    requires IsClustering(pts, calls, clusterSim, a) && IsClustering(pts, calls, clusterSim, b)
    ensures a == b
  {
    var linked := Clustering.Over(Vecs(pts), calls.cosine, Threshold(clusterSim));
    var x :| ListedBy(pts, linked, x, a);
    var y :| ListedBy(pts, linked, y, b);
    PickedUnique(pts, linked, x, y, a, b);
  }

  // ---------------------------------------------------------------------------------
  // The whole stage, in parallel

  /** `s` is the end of some run of the bounded parallel map whose parent stays live. */
  ghost predicate Completes<T(!new), E(!new)>(s: State<T, E>, f: nat -> Result<T, E>, n: nat, maxConc: int) {
    && Over(s) && !s.parentCancelled
    && exists states, steps :: IsRun(states, steps, f, n, Limit(maxConc)) && states[|states|-1] == s
  }

  function Values<T>(slots: seq<Option<T>>): seq<T>
    requires forall i :: 0 <= i < |slots| ==> slots[i].Some?
  {
    seq(|slots|, i requires 0 <= i < |slots| => slots[i].value)
  }

  /** Whatever the schedule, the map gives the serial results, or fails when the serial run
    * fails, with the error of some call. */
  lemma MapMatchesSerial<T(!new), E(!new)>(s: State<T, E>, f: nat -> Result<T, E>, n: nat, maxConc: int)
    requires Completes(s, f, n, maxConc)
    ensures s.first.None? <==> Serial(f, n).Ok?
    ensures s.first.None? ==>
      (forall i :: 0 <= i < |s.slots| ==> s.slots[i].Some?) && Values(s.slots) == Serial(f, n).value
    ensures s.first.Some? ==> FailsWith(f, n, s.first.value)
  {
    var states, steps :| IsRun(states, steps, f, n, Limit(maxConc)) && states[|states|-1] == s;
    RunInv(states, steps, f, n, Limit(maxConc), |states| - 1);
    LiveParentIsExact(s, f, n, Limit(maxConc));
    SerialIs(f, n);
  }

  /** One run of the stage: the embedding map ends in `s1`, the merging map in `s2`. */
  ghost predicate ParallelStage<V(!new), E(!new)>(
    cands: seq<Candidate>, calls: Calls<V, E>, clusterSim: real, maxConc: int, s1: State<Point<V>, E>,
    clusters: seq<seq<Point<V>>>, s2: State<seq<Point<V>>, E>, r: Result<seq<Point<V>>, E>)
  {
    var d := Deduped(cands, calls.norm);
    if d == [] then r == Ok([])
    else
      && Completes(s1, EmbedAt(d, calls), |d|, maxConc)
      && match s1.first
         case Some(e) => r == Err(e)
         case None =>
           && (forall i :: 0 <= i < |s1.slots| ==> s1.slots[i].Some?)
           && IsClustering(Values(s1.slots), calls, clusterSim, clusters)
           && Completes(s2, MergeAt(clusters, calls), |clusters|, maxConc)
           && match s2.first
              case Some(e) => r == Err(e)
              case None =>
                && (forall i :: 0 <= i < |s2.slots| ==> s2.slots[i].Some?)
                && r == Ok(Flatten(Values(s2.slots), |s2.slots|))
  }

  /** Under every schedule the stage returns what the serial stage returns; when the serial
    * stage fails it fails too. */
  lemma SameAsSerial<V(!new), E(!new)>(cands: seq<Candidate>, calls: Calls<V, E>, clusterSim: real, maxConc: int,
                           s1: State<Point<V>, E>, clusters: seq<seq<Point<V>>>, s2: State<seq<Point<V>>, E>,
                           r: Result<seq<Point<V>>, E>,
                           serialClusters: seq<seq<Point<V>>>, serial: Result<seq<Point<V>>, E>)
    requires ParallelStage(cands, calls, clusterSim, maxConc, s1, clusters, s2, r)
    requires SerialStage(cands, calls, clusterSim, serialClusters, serial)
    ensures r.Ok? <==> serial.Ok?
    ensures r.Ok? ==> r == serial
  {
    var d := Deduped(cands, calls.norm);
    if d != [] {
      MapMatchesSerial(s1, EmbedAt(d, calls), |d|, maxConc);
      if s1.first.None? {
        ClusteringUnique(Values(s1.slots), calls, clusterSim, clusters, serialClusters);
        MapMatchesSerial(s2, MergeAt(clusters, calls), |clusters|, maxConc);
      }
    }
  }

  /** A failure of the stage is a failure of one of its calls. */
  lemma FailureIsACall<V(!new), E(!new)>(cands: seq<Candidate>, calls: Calls<V, E>, clusterSim: real, maxConc: int,
                             s1: State<Point<V>, E>, clusters: seq<seq<Point<V>>>, s2: State<seq<Point<V>>, E>,
                             r: Result<seq<Point<V>>, E>)
    requires ParallelStage(cands, calls, clusterSim, maxConc, s1, clusters, s2, r) && r.Err?
    ensures var d := Deduped(cands, calls.norm);
      d != [] &&
      (FailsWith(EmbedAt(d, calls), |d|, r.error) || FailsWith(MergeAt(clusters, calls), |clusters|, r.error))
  {
    var d := Deduped(cands, calls.norm);
    MapMatchesSerial(s1, EmbedAt(d, calls), |d|, maxConc);
    if s1.first.None? { MapMatchesSerial(s2, MergeAt(clusters, calls), |clusters|, maxConc); }
  }
}
