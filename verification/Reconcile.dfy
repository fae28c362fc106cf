/** Collecting the pages related to a change: a breadth-first walk bounded in hops. */
module Reconcile {
  import opened Graph
  import opened Wrappers

  /** One hop: pages pass changes along edges either way, other ids only to their pages. */
  ghost predicate Step(pages: set<Id>, links: Links, x: Id, y: Id) {
    if x in pages then
      || (exists e :: e in links.outs(x) && e.target == y)
      || (exists e :: e in links.ins(x) && e.source == y)
    else
      exists e :: e in links.outs(x) && e.kind == HasPage && e.target == y
  }

  /** The ids reachable from the seeds in at most `h` hops; empty ids are never followed. */
  ghost predicate Reached(pages: set<Id>, links: Links, seeds: seq<Id>, h: nat, x: Id)
    decreases h
  {
    x != "" && (
      (h == 0 && x in seeds)
      || (h > 0 && Reached(pages, links, seeds, h - 1, x))
      || (h > 0 && exists y :: Reached(pages, links, seeds, h - 1, y) && Step(pages, links, y, x)))
  }

  /** The i-th id of `p` steps to the next, if there is one. */
  ghost predicate Hop(pages: set<Id>, links: Links, p: seq<Id>, i: nat) {
    i + 1 < |p| ==> Step(pages, links, p[i], p[i+1])
  }

  /** A walk of non-empty ids from a seed. */
  ghost predicate Walk(pages: set<Id>, links: Links, seeds: seq<Id>, p: seq<Id>) {
    && |p| > 0 && p[0] in seeds
    && (forall i :: 0 <= i < |p| ==> p[i] != "")
    && (forall i :: Hop(pages, links, p, i))
  }

  lemma {:induction false} WalkReaches(pages: set<Id>, links: Links, seeds: seq<Id>, p: seq<Id>, h: nat)
    requires Walk(pages, links, seeds, p) && |p| <= h + 1
    ensures Reached(pages, links, seeds, h, p[|p|-1])
    decreases h
  {
    if |p| == 1 {
      if h > 0 { WalkReaches(pages, links, seeds, p, h - 1); }
    } else {
      var front := p[..|p|-1];
      forall i ensures Hop(pages, links, front, i) { assert Hop(pages, links, p, i); }
      WalkReaches(pages, links, seeds, front, h - 1);
      assert Hop(pages, links, p, |p| - 2);
    }
  }

  lemma {:induction false} ReachedHasWalk(pages: set<Id>, links: Links, seeds: seq<Id>, h: nat, x: Id)
    returns (p: seq<Id>)
    requires Reached(pages, links, seeds, h, x)
    ensures Walk(pages, links, seeds, p) && |p| <= h + 1 && p[|p|-1] == x
    decreases h
  {
    if h == 0 {
      p := [x];
    } else if Reached(pages, links, seeds, h - 1, x) {
      p := ReachedHasWalk(pages, links, seeds, h - 1, x);
    } else {
      var y :| Reached(pages, links, seeds, h - 1, y) && Step(pages, links, y, x);
      var q := ReachedHasWalk(pages, links, seeds, h - 1, y);
      WalkOn(pages, links, seeds, q, x);
      p := q + [x];
    }
  }

  lemma WalkOn(pages: set<Id>, links: Links, seeds: seq<Id>, p: seq<Id>, x: Id)
    requires Walk(pages, links, seeds, p) && x != "" && Step(pages, links, p[|p|-1], x)
    ensures Walk(pages, links, seeds, p + [x])
  {
    var q := p + [x];
    forall i ensures Hop(pages, links, q, i) { assert Hop(pages, links, p, i); }
  }

  /** Reached in `h` hops means: a walk of at most `h` steps from a seed ends there. */
  lemma ReachedIffWalk(pages: set<Id>, links: Links, seeds: seq<Id>, h: nat, x: Id)
    ensures Reached(pages, links, seeds, h, x) <==>
      exists p :: Walk(pages, links, seeds, p) && |p| <= h + 1 && p[|p|-1] == x
  {
    if Reached(pages, links, seeds, h, x) {
      var p := ReachedHasWalk(pages, links, seeds, h, x);
    }
    forall p | Walk(pages, links, seeds, p) && |p| <= h + 1 && p[|p|-1] == x
      ensures Reached(pages, links, seeds, h, x)
    {
      WalkReaches(pages, links, seeds, p, h);
    }
  }

  lemma {:induction false} ReachedGrows(pages: set<Id>, links: Links, seeds: seq<Id>, h: nat, k: nat, x: Id)
    requires h <= k && Reached(pages, links, seeds, h, x)
    ensures Reached(pages, links, seeds, k, x)
    decreases k
  {
    if h < k { ReachedGrows(pages, links, seeds, h, k - 1, x); }
  }

  /** A hop that finds nothing new is the last one that could. */
  lemma {:induction false} Saturated(pages: set<Id>, links: Links, seeds: seq<Id>, h: nat, k: nat, x: Id)
    requires h <= k && Reached(pages, links, seeds, k, x)
    requires forall y :: Reached(pages, links, seeds, h + 1, y) ==> Reached(pages, links, seeds, h, y)
    ensures Reached(pages, links, seeds, h, x)
    decreases k
  {
    if h < k {
      if Reached(pages, links, seeds, k - 1, x) {
        Saturated(pages, links, seeds, h, k - 1, x);
      } else {
        var y :| Reached(pages, links, seeds, k - 1, y) && Step(pages, links, y, x);
        Saturated(pages, links, seeds, h, k - 1, y);
        assert Reached(pages, links, seeds, h + 1, x);
      }
    }
  }

  // ---------------------------------------------------------------------------------
  // The walk

  ghost predicate NoRepeats(ids: seq<Id>) {
    forall i, j :: 0 <= i < j < |ids| ==> ids[i] != ids[j]
  }

  /** The queue's new ids: non-empty, not visited, each once. */
  method Admit(queue: seq<Id>, visited: set<Id>) returns (ids: seq<Id>, now: set<Id>)
    ensures NoRepeats(ids)
    ensures forall x :: x in ids <==> x in queue && x != "" && x !in visited
    ensures now == visited + set x | x in ids
  {
    ids, now := [], visited;
    var k := 0;
    while k < |queue|
      invariant 0 <= k <= |queue|
      invariant NoRepeats(ids)
      invariant forall x :: x in ids <==> x in queue[..k] && x != "" && x !in visited
      invariant now == visited + set x | x in ids
    {
      var id := queue[k];
      assert queue[..k+1] == queue[..k] + [id];
      k := k + 1;
      if id == "" || id in now { continue; }
      now := now + {id};
      ids := ids + [id];
    }
    assert queue[..k] == queue;
  }

  method Unvisited(edges: seq<Edge>, forward: bool, pagesOnly: bool, visited: set<Id>) returns (r: seq<Id>)
    ensures forall x :: x in r <==>
      x !in visited && exists e ::
        e in edges && (pagesOnly ==> e.kind == HasPage) && (if forward then e.target else e.source) == x
  {
    r := [];
    var k := 0;
    while k < |edges|
      invariant 0 <= k <= |edges|
      invariant forall x :: x in r <==>
        x !in visited && exists e ::
          e in edges[..k] && (pagesOnly ==> e.kind == HasPage) && (if forward then e.target else e.source) == x
    {
      var e := edges[k];
      var x := if forward then e.target else e.source;
      assert edges[..k+1] == edges[..k] + [e];
      if (pagesOnly ==> e.kind == HasPage) && x !in visited {
        r := r + [x];
      }
      k := k + 1;
    }
    assert edges[..k] == edges;
  }

  /** `x` is one hop from some id of `ids`. */
  ghost predicate NextTo(pages: set<Id>, links: Links, ids: seq<Id>, x: Id) {
    exists id :: id in ids && Step(pages, links, id, x)
  }

  lemma NextToAppend(pages: set<Id>, links: Links, ids: seq<Id>, id: Id, x: Id)
    ensures NextTo(pages, links, ids + [id], x) <==> NextTo(pages, links, ids, x) || Step(pages, links, id, x)
  {
    if Step(pages, links, id, x) { assert id in ids + [id]; }
    if y :| y in ids && Step(pages, links, y, x) { assert y in ids + [id]; }
  }

  /** The unvisited neighbours of one id. */
  method Neighbours<P>(id: Id, pages: map<Id, P>, links: Links, visited: set<Id>) returns (r: seq<Id>)
    ensures forall x :: x in r <==> x !in visited && Step(pages.Keys, links, id, x)
  {
    if id in pages {
      var outs := Unvisited(links.outs(id), true, false, visited);
      var ins := Unvisited(links.ins(id), false, false, visited);
      r := outs + ins;
    } else {
      r := Unvisited(links.outs(id), true, true, visited);
    }
  }

  function PagesAmong(pages: set<Id>, ids: seq<Id>): seq<Id> {
    if ids == [] then []
    else PagesAmong(pages, ids[..|ids|-1]) + if ids[|ids|-1] in pages then [ids[|ids|-1]] else []
  }

  lemma {:induction false} PagesAmongAre(pages: set<Id>, ids: seq<Id>)
    ensures forall x :: x in PagesAmong(pages, ids) <==> x in ids && x in pages
    ensures NoRepeats(ids) ==> NoRepeats(PagesAmong(pages, ids))
  {
    if ids != [] {
      var front, last := ids[..|ids|-1], ids[|ids|-1];
      PagesAmongAre(pages, front);
      assert ids == front + [last];
      if NoRepeats(ids) { assert last !in front; }
    }
  }

  /** One level: the level's pages in order, and the queue for the next. */
  method Expand<P>(ids: seq<Id>, pages: map<Id, P>, links: Links, visited: set<Id>)
    returns (found: seq<Id>, next: seq<Id>)
    ensures found == PagesAmong(pages.Keys, ids)
    ensures forall x :: x in next <==> x !in visited && NextTo(pages.Keys, links, ids, x)
  {
    found, next := [], [];
    var k := 0;
    while k < |ids|
      invariant 0 <= k <= |ids|
      invariant found == PagesAmong(pages.Keys, ids[..k])
      invariant forall x :: x in next <==> x !in visited && NextTo(pages.Keys, links, ids[..k], x)
    {
      var id := ids[k];
      if id in pages {
        found := found + [id];
      }
      var more := Neighbours(id, pages, links, visited);
      forall x ensures NextTo(pages.Keys, links, ids[..k+1], x) <==>
        NextTo(pages.Keys, links, ids[..k], x) || Step(pages.Keys, links, id, x)
      {
        assert ids[..k+1] == ids[..k] + [id];
        NextToAppend(pages.Keys, links, ids[..k], id, x);
      }
      assert ids[..k+1][..k] == ids[..k];
      next := next + more;
      k := k + 1;
    }
    assert ids[..k] == ids;
  }

  // ---------------------------------------------------------------------------------
  // Levels

  /** Everything reached before hop `h`. */
  ghost predicate Earlier(pages: set<Id>, links: Links, seeds: seq<Id>, h: nat, x: Id) {
    h > 0 && Reached(pages, links, seeds, h - 1, x)
  }

  /** At the start of hop `h` the visited ids are those reached earlier, and the queue holds,
    * beyond them, exactly the ids first reached at `h`. */
  ghost predicate AtLevel(pages: set<Id>, links: Links, seeds: seq<Id>, h: nat, queue: seq<Id>, visited: set<Id>) {
    && (forall x :: x in visited <==> Earlier(pages, links, seeds, h, x))
    && (forall x :: x != "" && x !in visited ==> (x in queue <==> Reached(pages, links, seeds, h, x)))
  }

  lemma NextLevel(pages: set<Id>, links: Links, seeds: seq<Id>, h: nat, queue: seq<Id>, visited: set<Id>,
                  ids: seq<Id>, now: set<Id>, next: seq<Id>)
    requires AtLevel(pages, links, seeds, h, queue, visited)
    requires forall x :: x in ids <==> x in queue && x != "" && x !in visited
    requires now == visited + set x | x in ids
    requires forall x :: x in next <==> x !in now && NextTo(pages, links, ids, x)
    ensures AtLevel(pages, links, seeds, h + 1, next, now)
  {
    forall x ensures x in now <==> Reached(pages, links, seeds, h, x) {
      if Reached(pages, links, seeds, h, x) && x !in visited { assert x in queue; }
      if x in visited { ReachedGrows(pages, links, seeds, h - 1, h, x); }
    }
    forall x | x != "" && x !in now ensures x in next <==> Reached(pages, links, seeds, h + 1, x) {
      if Reached(pages, links, seeds, h + 1, x) {
        var y :| Reached(pages, links, seeds, h, y) && Step(pages, links, y, x);
        assert y in now;
      }
      if x in next {
        var y :| y in ids && Step(pages, links, y, x);
        assert y in now;
      }
    }
  }

  /** The pages gathered so far: each once, exactly those visited, nearer ones first. */
  ghost predicate Gathered(pages: set<Id>, links: Links, seeds: seq<Id>, got: seq<Id>, visited: set<Id>) {
    && NoRepeats(got)
    && (forall x :: x in got <==> x in visited && x in pages)
    && (forall i, j, h: nat :: 0 <= i < j < |got| && Reached(pages, links, seeds, h, got[j]) ==>
          Reached(pages, links, seeds, h, got[i]))
  }

  lemma GatherLevel(pages: set<Id>, links: Links, seeds: seq<Id>, h: nat, queue: seq<Id>, visited: set<Id>,
                    ids: seq<Id>, now: set<Id>, got: seq<Id>)
    requires AtLevel(pages, links, seeds, h, queue, visited)
    requires NoRepeats(ids) && forall x :: x in ids <==> x in queue && x != "" && x !in visited
    requires now == visited + set x | x in ids
    requires Gathered(pages, links, seeds, got, visited)
    ensures Gathered(pages, links, seeds, got + PagesAmong(pages, ids), now)
  {
    var found := PagesAmong(pages, ids);
    PagesAmongAre(pages, ids);
    var all := got + found;
    forall x | x in all ensures Reached(pages, links, seeds, h, x) {
      if x in visited { ReachedGrows(pages, links, seeds, h - 1, h, x); }
    }
    forall i, j | 0 <= i < j < |all| ensures all[i] != all[j] {
      if i < |got| <= j { assert all[i] in got && all[j] in found; }
    }
    forall i, j, k: nat | 0 <= i < j < |all| && Reached(pages, links, seeds, k, all[j])
      ensures Reached(pages, links, seeds, k, all[i])
    {
      if j >= |got| {
        assert all[j] in found;
        if i < |got| { assert all[i] in got; } else { assert all[i] in found; }
        NearerFirst(pages, links, seeds, h, k, all[i], all[j]);
      }
    }
  }

  /** What is first reached at hop `h` is not reached before anything reached by then. */
  lemma NearerFirst(pages: set<Id>, links: Links, seeds: seq<Id>, h: nat, k: nat, near: Id, far: Id)
    requires Reached(pages, links, seeds, h, near) && !Earlier(pages, links, seeds, h, far)
    requires Reached(pages, links, seeds, k, far)
    ensures Reached(pages, links, seeds, k, near)
  {
    if k < h { ReachedGrows(pages, links, seeds, k, h - 1, far); }
    ReachedGrows(pages, links, seeds, h, k, near);
  }

  function Hops(maxHops: int): (h: nat)
    ensures h == if maxHops > 0 then maxHops else 3
  {
    if maxHops <= 0 then 3 else maxHops
  }

  /** Some id is first reached at hop `h`. */
  ghost predicate NewAt(pages: set<Id>, links: Links, seeds: seq<Id>, h: nat) {
    exists x :: Reached(pages, links, seeds, h, x) && !Earlier(pages, links, seeds, h, x)
  }

  lemma AdmittedAreNew(pages: set<Id>, links: Links, seeds: seq<Id>, h: nat, queue: seq<Id>, visited: set<Id>,
                       ids: seq<Id>)
    requires AtLevel(pages, links, seeds, h, queue, visited)
    requires forall x :: x in ids <==> x in queue && x != "" && x !in visited
    ensures ids != [] <==> NewAt(pages, links, seeds, h)
  {
    if ids != [] { assert ids[0] in ids && Reached(pages, links, seeds, h, ids[0]); }
    if x :| Reached(pages, links, seeds, h, x) && !Earlier(pages, links, seeds, h, x) { assert x in ids; }
  }

  /** An empty queue ends the walk: no later hop would reach anything new. */
  lemma NothingNewAfter(pages: set<Id>, links: Links, seeds: seq<Id>, h: nat, visited: set<Id>, k: nat)
    requires AtLevel(pages, links, seeds, h, [], visited) && h <= k
    ensures !NewAt(pages, links, seeds, k)
  {
    forall y | Reached(pages, links, seeds, h, y) ensures Earlier(pages, links, seeds, h, y) {}
    forall x | Reached(pages, links, seeds, k, x) ensures Earlier(pages, links, seeds, k, x) {
      if h == 0 {
        NoSeeds(pages, links, seeds, k, x);
      } else {
        Saturated(pages, links, seeds, h - 1, k, x);
        ReachedGrows(pages, links, seeds, h - 1, k - 1, x);
      }
    }
  }

  /** No page query of the hops below `h` failed. */
  ghost predicate ReadBelow(pages: set<Id>, links: Links, seeds: seq<Id>, h: nat, readable: nat -> bool) {
    forall k: nat :: k < h && NewAt(pages, links, seeds, k) ==> readable(k)
  }

  /** The page query of some hop fails. */
  ghost predicate SomeUnread(pages: set<Id>, links: Links, seeds: seq<Id>, hops: nat, readable: nat -> bool) {
    exists k: nat :: k <= hops && NewAt(pages, links, seeds, k) && !readable(k)
  }

  lemma AllRead(pages: set<Id>, links: Links, seeds: seq<Id>, h: nat, hops: nat, queue: seq<Id>, visited: set<Id>,
                readable: nat -> bool)
    requires AtLevel(pages, links, seeds, h, queue, visited) && ReadBelow(pages, links, seeds, h, readable)
    requires h == hops + 1 || (queue == [] && h <= hops)
    ensures !SomeUnread(pages, links, seeds, hops, readable)
  {
    forall k: nat | h <= k <= hops ensures !NewAt(pages, links, seeds, k) {
      NothingNewAfter(pages, links, seeds, h, visited, k);
    }
  }

  lemma EndOfWalk(pages: set<Id>, links: Links, seeds: seq<Id>, h: nat, hops: nat, queue: seq<Id>, visited: set<Id>,
                  x: Id)
    requires AtLevel(pages, links, seeds, h, queue, visited)
    requires h == hops + 1 || (queue == [] && h <= hops)
    ensures x in visited <==> Reached(pages, links, seeds, hops, x)
  {
    if h <= hops {
      forall y | Reached(pages, links, seeds, h, y) ensures Earlier(pages, links, seeds, h, y) {}
      if Reached(pages, links, seeds, hops, x) {
        if h == 0 { NoSeeds(pages, links, seeds, hops, x); } else { Saturated(pages, links, seeds, h - 1, hops, x); }
      }
      if x in visited { ReachedGrows(pages, links, seeds, h - 1, hops, x); }
    }
  }

  lemma {:induction false} NoSeeds(pages: set<Id>, links: Links, seeds: seq<Id>, k: nat, x: Id)
    requires forall y :: !Reached(pages, links, seeds, 0, y)
    ensures !Reached(pages, links, seeds, k, x)
    decreases k
  {
    if k > 0 && Reached(pages, links, seeds, k, x) {
      NoSeeds(pages, links, seeds, k - 1, x);
      var y :| Reached(pages, links, seeds, k - 1, y) && Step(pages, links, y, x);
      NoSeeds(pages, links, seeds, k - 1, y);
    }
  }

  /** Where the walk stands before hop `h`. */
  ghost predicate Walked(pages: set<Id>, links: Links, seeds: seq<Id>, h: nat, queue: seq<Id>, visited: set<Id>,
                         got: seq<Id>, readable: nat -> bool) {
    && AtLevel(pages, links, seeds, h, queue, visited)
    && Gathered(pages, links, seeds, got, visited)
    && ReadBelow(pages, links, seeds, h, readable)
  }

  /** One hop: the level's pages and the queue for the next, or a failed page query. */
  method TakeHop<P>(ghost seeds: seq<Id>, hop: nat, pages: map<Id, P>, links: Links, queue: seq<Id>,
                    visited: set<Id>, readable: nat -> bool, ghost got: seq<Id>)
    returns (failed: bool, found: seq<Id>, next: seq<Id>, now: set<Id>)
    requires Walked(pages.Keys, links, seeds, hop, queue, visited, got, readable)
    ensures failed ==> NewAt(pages.Keys, links, seeds, hop) && !readable(hop)
    ensures !failed ==> Walked(pages.Keys, links, seeds, hop + 1, next, now, got + found, readable)
    ensures !failed ==> forall x :: x in found ==> x in pages
  {
    var ids;
    ids, now := Admit(queue, visited);
    AdmittedAreNew(pages.Keys, links, seeds, hop, queue, visited, ids);
    if ids != [] && !readable(hop) { return true, [], [], now; }
    failed := false;
    found, next := Expand(ids, pages, links, now);
    GatherLevel(pages.Keys, links, seeds, hop, queue, visited, ids, now, got);
    NextLevel(pages.Keys, links, seeds, hop, queue, visited, ids, now, next);
    PagesAmongAre(pages.Keys, ids);
  }

  /** The pages within `maxHops` hops of the seeds, level by level.  `readable` says whether
    * the page query of a hop succeeds; a failing one ends the walk with an error, and a hop
    * that reaches nothing new makes no query. */
  method CollectRelated<P>(seeds: seq<Id>, maxHops: int, pages: map<Id, P>, links: Links, readable: nat -> bool)
    returns (out: Option<seq<P>>, ghost got: seq<Id>)
    ensures out.None? <==> SomeUnread(pages.Keys, links, seeds, Hops(maxHops), readable)
    ensures out.Some? ==> (forall id :: id in got ==> id in pages) && out.value == Bodies(got, pages)
    ensures out.Some? ==> NoRepeats(got)
    ensures out.Some? ==> forall x :: x in got <==> x in pages && Reached(pages.Keys, links, seeds, Hops(maxHops), x)
    ensures out.Some? ==> forall i, j, h: nat :: 0 <= i < j < |got| && Reached(pages.Keys, links, seeds, h, got[j]) ==>
      Reached(pages.Keys, links, seeds, h, got[i])
  {
    var hops := Hops(maxHops);
    var visited: set<Id>, queue, related := {}, seeds, [];
    got := [];
    var hop := 0;
    while hop <= hops && queue != []
      invariant 0 <= hop <= hops + 1
      invariant Walked(pages.Keys, links, seeds, hop, queue, visited, got, readable)
      invariant (forall id :: id in got ==> id in pages) && related == Bodies(got, pages)
      decreases hops + 1 - hop
    {
      var failed, found, next, now := TakeHop(seeds, hop, pages, links, queue, visited, readable, got);
      if failed { return None, got; }
      BodiesAppend(got, found, pages);
      related := related + Bodies(found, pages);
      got := got + found;
      visited, queue := now, next;
      hop := hop + 1;
    }
    Collected(pages.Keys, links, seeds, hop, hops, queue, visited, got);
    AllRead(pages.Keys, links, seeds, hop, hops, queue, visited, readable);
    out := Some(related);
  }

  lemma BodiesAppend<P>(a: seq<Id>, b: seq<Id>, pages: map<Id, P>)
    requires forall x :: x in a || x in b ==> x in pages
    ensures forall x :: x in a + b ==> x in pages
    ensures Bodies(a + b, pages) == Bodies(a, pages) + Bodies(b, pages)
  {
  }

  lemma Collected(pages: set<Id>, links: Links, seeds: seq<Id>, h: nat, hops: nat, queue: seq<Id>, visited: set<Id>,
                  got: seq<Id>)
    requires AtLevel(pages, links, seeds, h, queue, visited) && Gathered(pages, links, seeds, got, visited)
    requires h == hops + 1 || (queue == [] && h <= hops)
    ensures forall x :: x in got <==> x in pages && Reached(pages, links, seeds, hops, x)
  {
    forall x ensures x in visited <==> Reached(pages, links, seeds, hops, x) {
      EndOfWalk(pages, links, seeds, h, hops, queue, visited, x);
    }
  }

  function Bodies<P>(ids: seq<Id>, pages: map<Id, P>): (r: seq<P>)
    requires forall x :: x in ids ==> x in pages
    ensures |r| == |ids| && forall i :: 0 <= i < |ids| ==> r[i] == pages[ids[i]]
  {
    seq(|ids|, i requires 0 <= i < |ids| && ids[i] in pages => pages[ids[i]])
  }
}
