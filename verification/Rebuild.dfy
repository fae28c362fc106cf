/** Regenerating the adjacency table and the dead-link set from page bodies. */
module Rebuild {
  import opened Graph
  import opened EdgeTable

  datatype Page = Page(id: Id, body: string)

  /** Pages by id. */
  type Pages = map<Id, Page>

  ghost predicate Filed(pages: Pages) {
    forall id :: id in pages ==> pages[id].id == id
  }

  /** How a body is read: its raw wikilinks, and the page id a raw link stands for. */
  datatype Reader = Reader(extract: string -> seq<string>, normalize: string -> Id)

  /** The raw links of a page that lead anywhere: normalized, non-empty, not to itself. */
  function Targets(r: Reader, raw: seq<string>, self: Id): seq<Id> {
    if raw == [] then []
    else
      var t := r.normalize(raw[|raw|-1]);
      Targets(r, raw[..|raw|-1], self) + if t == "" || t == self then [] else [t]
  }

  ghost predicate LinksTo(r: Reader, p: Page, target: Id) {
    target != "" && target != p.id && exists raw :: raw in r.extract(p.body) && r.normalize(raw) == target
  }

  lemma {:induction false} TargetsAre(r: Reader, raw: seq<string>, self: Id, t: Id)
    ensures t in Targets(r, raw, self) <==> t != "" && t != self && exists x :: x in raw && r.normalize(x) == t
  {
    if raw != [] {
      var front, last := raw[..|raw|-1], raw[|raw|-1];
      TargetsAre(r, front, self, t);
      assert raw == front + [last];
      if r.normalize(last) == t { assert last in raw; }
      if x :| x in front && r.normalize(x) == t { assert x in raw; }
    }
  }

  // ---------------------------------------------------------------------------------
  // What a rebuild leaves behind

  /** The out-edges of a source are exactly references to the existing targets of its body,
    * and its dead links exactly the missing ones. */
  ghost predicate InStep(r: Reader, pages: Pages, edges: Edges, pending: Pending, s: Id)
    requires s in pages
  {
    && (forall k: Key :: k.source == s ==>
          (k in edges <==> k.kind == References && k.target in pages && LinksTo(r, pages[s], k.target)))
    && (forall k: Key :: k.source == s && k in edges ==> edges[k].weight == 1.0)
    && (forall d: Dead :: d.source == s ==> (d in pending <==> d.target !in pages && LinksTo(r, pages[s], d.target)))
  }

  ghost function Touched(pages: Pages, touched: seq<Id>): set<Id> {
    set id | id in touched && id in pages
  }

  /** The whole effect: touched pages in step with their bodies, every other row untouched. */
  ghost predicate Rebuilt(r: Reader, pages: Pages, t: set<Id>, edges: Edges, pending: Pending, edges': Edges,
                          pending': Pending)
    requires t <= pages.Keys
  {
    && (forall s :: s in t ==> InStep(r, pages, edges', pending', s))
    && (forall k: Key :: k.source !in t ==> (k in edges' <==> k in edges) && (k in edges ==> edges'[k] == edges[k]))
    && (forall d: Dead :: d.source !in t ==>
      (d in pending' <==> d in pending) && (d in pending ==> pending'[d] == pending[d]))
  }

  /** Equal up to timestamps. */
  ghost predicate SameRows(edges: Edges, pending: Pending, edges': Edges, pending': Pending) {
    && edges.Keys == edges'.Keys
    && (forall k :: k in edges ==> edges'[k].weight == edges[k].weight)
    && pending.Keys == pending'.Keys
  }

  /** A second rebuild changes nothing but timestamps. */
  lemma RebuildTwice(r: Reader, pages: Pages, t: set<Id>, e0: Edges, p0: Pending, e1: Edges, p1: Pending, e2: Edges,
                     p2: Pending)
    requires t <= pages.Keys && Rebuilt(r, pages, t, e0, p0, e1, p1) && Rebuilt(r, pages, t, e1, p1, e2, p2)
    ensures SameRows(e1, p1, e2, p2)
  {
    forall k ensures k in e1 <==> k in e2 {
      if k.source in t { assert InStep(r, pages, e1, p1, k.source) && InStep(r, pages, e2, p2, k.source); }
    }
    forall k | k in e1 ensures e2[k].weight == e1[k].weight {
      if k.source in t { assert InStep(r, pages, e1, p1, k.source) && InStep(r, pages, e2, p2, k.source); }
    }
    forall d ensures d in p1 <==> d in p2 {
      if d.source in t { assert InStep(r, pages, e1, p1, d.source) && InStep(r, pages, e2, p2, d.source); }
    }
  }

  /** Rebuilding two sets of pages one after the other is rebuilding them together. */
  lemma RebuildsCompose(r: Reader, pages: Pages, t: set<Id>, u: set<Id>, e0: Edges, p0: Pending, e1: Edges,
                        p1: Pending, e2: Edges, p2: Pending)
    requires t <= pages.Keys && u <= pages.Keys
    requires Rebuilt(r, pages, t, e0, p0, e1, p1) && Rebuilt(r, pages, u, e1, p1, e2, p2)
    ensures Rebuilt(r, pages, t + u, e0, p0, e2, p2)
  {
    forall s | s in t + u ensures InStep(r, pages, e2, p2, s) {
      if s !in u { assert InStep(r, pages, e1, p1, s); }
    }
  }

  // ---------------------------------------------------------------------------------
  // The index as a whole

  ghost predicate AllInStep(r: Reader, pages: Pages, edges: Edges, pending: Pending) {
    forall s :: s in pages ==> InStep(r, pages, edges, pending, s)
  }

  /** `now` is `was` after a run that wrote the pages of `t`: pages outside `t` are as they
    * were, and none was removed. */
  ghost predicate Written(was: Pages, now: Pages, t: set<Id>) {
    && t <= now.Keys && was.Keys <= now.Keys && now.Keys <= was.Keys + t
    && forall id :: id in was && id !in t ==> now[id] == was[id]
  }

  /** An index in step with every page stays so across a run exactly when no untouched page
    * links to a page the run created: such a link stays recorded as dead. */
  lemma InStepAfterRunIff(r: Reader, was: Pages, now: Pages, t: set<Id>, e: Edges, p: Pending, e': Edges, p': Pending)
    requires Written(was, now, t) && AllInStep(r, was, e, p) && Rebuilt(r, now, t, e, p, e', p')
    ensures AllInStep(r, now, e', p') <==>
      forall s, x :: s in now && s !in t && x in now && x !in was ==> !LinksTo(r, now[s], x)
  {
    if s, x :| s in now && s !in t && x in now && x !in was && LinksTo(r, now[s], x) {
      StaleLink(r, was, now, t, e, p, e', p', s, x);
    } else {
      forall s | s in now ensures InStep(r, now, e', p', s) {
        if s !in t { UntouchedInStep(r, was, now, t, e, p, e', p', s); }
      }
    }
  }

  lemma StaleLink(r: Reader, was: Pages, now: Pages, t: set<Id>, e: Edges, p: Pending, e': Edges, p': Pending, s: Id,
                  x: Id)
    requires Written(was, now, t) && AllInStep(r, was, e, p) && Rebuilt(r, now, t, e, p, e', p')
    requires s in now && s !in t && x in now && x !in was && LinksTo(r, now[s], x)
    ensures Dead(s, x) in p' && Key(s, x, References) !in e' && !InStep(r, now, e', p', s)
  {
    assert InStep(r, was, e, p, s);
    assert Dead(s, x).source == s && Key(s, x, References).source == s;
    assert Dead(s, x) in p;
    assert Key(s, x, References) !in e;
  }

  lemma UntouchedInStep(r: Reader, was: Pages, now: Pages, t: set<Id>, e: Edges, p: Pending, e': Edges, p': Pending,
                        s: Id)
    requires Written(was, now, t) && AllInStep(r, was, e, p) && Rebuilt(r, now, t, e, p, e', p')
    requires s in now && s !in t
    requires forall x :: x in now && x !in was ==> !LinksTo(r, now[s], x)
    ensures InStep(r, now, e', p', s)
  {
    assert InStep(r, was, e, p, s);
  }

  lemma OnlyReferences(r: Reader, pages: Pages, edges: Edges, pending: Pending, k: Key)
    requires k.source in pages && InStep(r, pages, edges, pending, k.source) && k in edges
    ensures k.kind == References
  {
  }

  /** A rebuild keeps contradictions two-way exactly when none of them runs from an
    * untouched page into a touched one. */
  lemma ContradictionsSurviveIff(r: Reader, pages: Pages, t: set<Id>, e: Edges, p: Pending, e': Edges, p': Pending)
    requires t <= pages.Keys && Symmetric(e) && Rebuilt(r, pages, t, e, p, e', p')
    ensures Symmetric(e') <==> forall a, b :: Key(a, b, Contradicts) in e && a !in t ==> b !in t
  {
    forall k | k in e' && k.source in t ensures k.kind == References {
      OnlyReferences(r, pages, e', p', k);
    }
    if a, b :| Key(a, b, Contradicts) in e && a !in t && b in t {
      assert Key(a, b, Contradicts) in e';
      assert Reverse(Key(a, b, Contradicts)) !in e';
    } else {
      forall k | k in e' && k.kind == Contradicts ensures Reverse(k) in e' {
        assert k in e && k == Key(k.source, k.target, Contradicts);
        assert Reverse(k) in e;
      }
    }
  }

  // ---------------------------------------------------------------------------------
  // The rebuild

  datatype Link = Link(source: Id, target: Id)

  /** The stored pages among `ids`, each once. */
  method GetPagesByIDs(pages: Pages, ids: seq<Id>) returns (out: seq<Page>)
    requires Filed(pages)
    ensures forall p :: p in out <==> p.id in Touched(pages, ids) && pages[p.id] == p
  {
    out := [];
    var seen: set<Id> := {};
    var i := 0;
    while i < |ids|
      invariant 0 <= i <= |ids|
      invariant seen == Touched(pages, ids[..i])
      invariant forall p :: p in out <==> p.id in seen && pages[p.id] == p
    {
      assert ids[..i+1] == ids[..i] + [ids[i]];
      if ids[i] in pages && ids[i] !in seen {
        out := out + [pages[ids[i]]];
        seen := seen + {ids[i]};
      }
      i := i + 1;
    }
    assert ids[..i] == ids;
  }

  ghost predicate LinksOf(r: Reader, ps: seq<Page>, links: seq<Link>) {
    forall l :: l in links <==> exists p :: p in ps && p.id == l.source && LinksTo(r, p, l.target)
  }

  /** Every link of the pages, in order, with repeats; and the targets, each once. */
  method CollectLinks(r: Reader, ps: seq<Page>) returns (links: seq<Link>, targets: seq<Id>)
    ensures LinksOf(r, ps, links)
    ensures forall t :: t in targets <==> exists l :: l in links && l.target == t
    ensures forall i, j :: 0 <= i < j < |targets| ==> targets[i] != targets[j]
  {
    links := [];
    var i := 0;
    while i < |ps|
      invariant 0 <= i <= |ps| && LinksOf(r, ps[..i], links)
    {
      var p := ps[i];
      var own := PageLinks(r, p);
      assert ps[..i+1] == ps[..i] + [p];
      forall l ensures l in links + own <==> exists q :: q in ps[..i+1] && q.id == l.source && LinksTo(r, q, l.target) {
        if l in own { assert p in ps[..i+1]; }
        if q :| q in ps[..i] && q.id == l.source && LinksTo(r, q, l.target) { assert q in ps[..i+1]; }
      }
      links := links + own;
      i := i + 1;
    }
    assert ps[..i] == ps;
    targets := DistinctTargets(links);
  }

  method DistinctTargets(links: seq<Link>) returns (targets: seq<Id>)
    ensures forall t :: t in targets <==> exists l :: l in links && l.target == t
    ensures forall i, j :: 0 <= i < j < |targets| ==> targets[i] != targets[j]
  {
    targets := [];
    var i := 0;
    while i < |links|
      invariant 0 <= i <= |links|
      invariant forall t :: t in targets <==> exists l :: l in links[..i] && l.target == t
      invariant forall j, k :: 0 <= j < k < |targets| ==> targets[j] != targets[k]
    {
      assert links[..i+1] == links[..i] + [links[i]];
      if links[i].target !in targets {
        targets := targets + [links[i].target];
      }
      i := i + 1;
    }
    assert links[..i] == links;
  }

  method PageLinks(r: Reader, p: Page) returns (links: seq<Link>)
    ensures forall l :: l in links <==> l.source == p.id && LinksTo(r, p, l.target)
  {
    var raw := r.extract(p.body);
    links := [];
    var i := 0;
    while i < |raw|
      invariant 0 <= i <= |raw|
      invariant forall l :: l in links <==> l.source == p.id && l.target in Targets(r, raw[..i], p.id)
    {
      var target := r.normalize(raw[i]);
      assert raw[..i+1][..i] == raw[..i];
      if !(target == "" || target == p.id) {
        links := links + [Link(p.id, target)];
      }
      i := i + 1;
    }
    assert raw[..i] == raw;
    forall l ensures l in links <==> l.source == p.id && LinksTo(r, p, l.target) {
      TargetsAre(r, raw, p.id, l.target);
    }
  }

  function IdsOf(ps: seq<Page>): set<Id> {
    set p | p in ps :: p.id
  }

  /** Drops every out-edge and dead link of the pages. */
  method ClearSources(store: Store, ps: seq<Page>)
    modifies store
    ensures store.edges == map k | k in old(store.edges) && k.source !in IdsOf(ps) :: old(store.edges)[k]
    ensures store.pending == map d | d in old(store.pending) && d.source !in IdsOf(ps) :: old(store.pending)[d]
  {
    var i := 0;
    while i < |ps|
      invariant 0 <= i <= |ps|
      invariant store.edges == map k | k in old(store.edges) && k.source !in IdsOf(ps[..i]) :: old(store.edges)[k]
      invariant store.pending == map d | d in old(store.pending) && d.source !in IdsOf(ps[..i]) :: old(store.pending)[d]
    {
      assert ps[..i+1] == ps[..i] + [ps[i]];
      assert IdsOf(ps[..i+1]) == IdsOf(ps[..i]) + {ps[i].id};
      store.DeleteEdgesFor(ps[i].id);
      store.DeletePendingLinksFor(ps[i].id);
      i := i + 1;
    }
    assert ps[..i] == ps;
  }

  type Lists = map<Id, seq<Id>>

  function ListOf(m: Lists, id: Id): seq<Id> {
    if id in m then m[id] else []
  }

  ghost predicate Resolves(links: seq<Link>, existing: set<Id>, batch: seq<Edge>) {
    forall e :: e in batch <==>
      e.kind == References && e.weight == 1.0 && Link(e.source, e.target) in links && e.target in existing
  }

  ghost predicate ListsLinks(links: seq<Link>, lists: Lists, existing: set<Id>, present: bool) {
    forall s, t :: t in ListOf(lists, s) <==> Link(s, t) in links && (t in existing <==> present)
  }

  lemma ListsOneMore(links: seq<Link>, l: Link, lists: Lists, existing: set<Id>, present: bool)
    requires ListsLinks(links, lists, existing, present)
    ensures if l.target in existing <==> present
      then ListsLinks(links + [l], lists[l.source := ListOf(lists, l.source) + [l.target]], existing, present)
      else ListsLinks(links + [l], lists, existing, present)
  {
    var more := lists[l.source := ListOf(lists, l.source) + [l.target]];
    forall s, t ensures t in ListOf(more, s) <==> t in ListOf(lists, s) || (s == l.source && t == l.target) {}
    forall s, t ensures Link(s, t) in links + [l] <==> Link(s, t) in links || Link(s, t) == l {}
  }

  /** Partitions the links into edges to existing pages and dead links. */
  method Partition(links: seq<Link>, existing: set<Id>) returns (batch: seq<Edge>, dead: Lists, resolved: Lists)
    ensures Resolves(links, existing, batch)
    ensures ListsLinks(links, dead, existing, false) && ListsLinks(links, resolved, existing, true)
  {
    batch, dead, resolved := [], map[], map[];
    var i := 0;
    while i < |links|
      invariant 0 <= i <= |links| && Resolves(links[..i], existing, batch)
      invariant ListsLinks(links[..i], dead, existing, false)
      invariant ListsLinks(links[..i], resolved, existing, true)
    {
      var l := links[i];
      assert links[..i+1] == links[..i] + [l];
      ListsOneMore(links[..i], l, dead, existing, false);
      ListsOneMore(links[..i], l, resolved, existing, true);
      if l.target in existing {
        batch := batch + [Edge(l.source, l.target, References, 1.0)];
        resolved := resolved[l.source := ListOf(resolved, l.source) + [l.target]];
      } else {
        dead := dead[l.source := ListOf(dead, l.source) + [l.target]];
      }
      i := i + 1;
    }
    assert links[..i] == links;
  }

  lemma {:induction false} AddReferences(edges: Edges, batch: seq<Edge>, now: nat)
    requires forall e :: e in batch ==> e.kind == References && e.weight == 1.0
    ensures forall k :: k in AddPairs(edges, batch, now) <==>
      k in edges || Edge(k.source, k.target, k.kind, 1.0) in batch
    ensures forall k :: k in AddPairs(edges, batch, now) ==>
      if Edge(k.source, k.target, k.kind, 1.0) in batch then AddPairs(edges, batch, now)[k].weight == 1.0
      else k in edges && AddPairs(edges, batch, now)[k] == edges[k]
  {
    if batch != [] {
      var front, last := batch[..|batch|-1], batch[|batch|-1];
      AddReferences(edges, front, now);
      assert batch == front + [last];
      assert last in batch;
    }
  }

  method RecordDead(store: Store, dead: Lists, now: nat)
    modifies store`pending
    ensures forall d :: d in store.pending <==> d in old(store.pending) || d.target in ListOf(dead, d.source)
    ensures forall d :: d in store.pending && d.target !in ListOf(dead, d.source) ==>
      store.pending[d] == old(store.pending)[d]
  {
    var rest := dead.Keys;
    while rest != {}
      invariant rest <= dead.Keys
      invariant forall d :: d in store.pending <==>
        d in old(store.pending) || (d.target in ListOf(dead, d.source) && d.source !in rest)
      invariant forall d :: d in store.pending && d.target !in ListOf(dead, d.source) ==>
        store.pending[d] == old(store.pending)[d]
      decreases rest
    {
      var s :| s in rest;
      store.RecordPendingLinks(s, dead[s], now);
      rest := rest - {s};
    }
  }

  method ClearResolved(store: Store, resolved: Lists)
    modifies store`pending
    ensures store.pending == map d | d in old(store.pending) && d.target !in ListOf(resolved, d.source) ::
      old(store.pending)[d]
  {
    var rest := resolved.Keys;
    while rest != {}
      invariant rest <= resolved.Keys
      invariant store.pending == map d | d in old(store.pending) &&
        (d.target !in ListOf(resolved, d.source) || d.source in rest) :: old(store.pending)[d]
      decreases rest
    {
      var s :| s in rest;
      store.ClearPendingLinks(s, resolved[s]);
      rest := rest - {s};
    }
  }

  /** Regenerates the out-edges and dead links of the touched pages. */
  method RebuildEdges(store: Store, r: Reader, pages: Pages, touched: seq<Id>, now: nat)
    requires Filed(pages)
    modifies store
    ensures Rebuilt(r, pages, Touched(pages, touched), old(store.edges), old(store.pending), store.edges, store.pending)
  {
    var ps := GetPagesByIDs(pages, touched);
    FetchedIds(pages, touched, ps);
    if touched == [] || ps == [] {
      return;
    }
    var links, targets := CollectLinks(r, ps);
    var found := GetPagesByIDs(pages, targets);
    var batch, dead, resolved := Partition(links, IdsOf(found));
    ClearSources(store, ps);
    ghost var cleared, clearedPending := store.edges, store.pending;
    store.AddEdgePairs(batch, now);
    RecordDead(store, dead, now);
    ghost var recorded := store.pending;
    ClearResolved(store, resolved);
    FetchedIds(pages, targets, found);
    LinksByPage(r, pages, touched, ps, links);
    AddReferences(cleared, batch, now);
    Assembled(r, pages, IdsOf(ps), links, IdsOf(found), batch, dead, resolved, old(store.edges), old(store.pending),
              store.edges, recorded, store.pending);
  }

  lemma FetchedIds(pages: Pages, ids: seq<Id>, ps: seq<Page>)
    requires Filed(pages)
    requires forall p :: p in ps <==> p.id in Touched(pages, ids) && pages[p.id] == p
    ensures IdsOf(ps) == Touched(pages, ids)
  {
    forall id | id in Touched(pages, ids) ensures id in IdsOf(ps) {
      assert pages[id].id == id && pages[id] in ps;
    }
  }

  lemma LinksByPage(r: Reader, pages: Pages, ids: seq<Id>, ps: seq<Page>, links: seq<Link>)
    requires Filed(pages) && LinksOf(r, ps, links)
    requires forall p :: p in ps <==> p.id in Touched(pages, ids) && pages[p.id] == p
    ensures forall l :: l in links <==> l.source in Touched(pages, ids) && LinksTo(r, pages[l.source], l.target)
  {
    forall l ensures l in links <==> l.source in Touched(pages, ids) && LinksTo(r, pages[l.source], l.target) {
      if l.source in Touched(pages, ids) { assert pages[l.source] in ps; }
    }
  }

  /** The tables after the batch, the recording and the clearing are the rebuilt ones. */
  lemma Assembled(r: Reader, pages: Pages, t: set<Id>, links: seq<Link>, existing: set<Id>, batch: seq<Edge>,
                  dead: Lists, resolved: Lists, e: Edges, p: Pending, e': Edges, recorded: Pending, p': Pending)
    requires t <= pages.Keys
    requires forall l :: l in links <==> l.source in t && LinksTo(r, pages[l.source], l.target)
    requires forall x :: x in existing <==> x in pages && exists l :: l in links && l.target == x
    requires Resolves(links, existing, batch)
    requires ListsLinks(links, dead, existing, false) && ListsLinks(links, resolved, existing, true)
    requires forall k :: k in e' <==> (k in e && k.source !in t) || Edge(k.source, k.target, k.kind, 1.0) in batch
    requires forall k :: k in e' ==>
      if Edge(k.source, k.target, k.kind, 1.0) in batch then e'[k].weight == 1.0 else k in e && e'[k] == e[k]
    requires forall d :: d in recorded <==> (d in p && d.source !in t) || d.target in ListOf(dead, d.source)
    requires forall d :: d in recorded && d.target !in ListOf(dead, d.source) ==> d in p && recorded[d] == p[d]
    requires p' == map d | d in recorded && d.target !in ListOf(resolved, d.source) :: recorded[d]
    ensures Rebuilt(r, pages, t, e, p, e', p')
  {
    forall s, x ensures Link(s, x) in links && x in existing <==> s in t && LinksTo(r, pages[s], x) && x in pages {
      if s in t && LinksTo(r, pages[s], x) { assert Link(s, x) in links; }
    }
    forall d: Dead | d.source !in t ensures (d in p' <==> d in p) && (d in p ==> p'[d] == p[d]) {
      assert Link(d.source, d.target) !in links;
      assert d.target !in ListOf(dead, d.source) && d.target !in ListOf(resolved, d.source);
    }
    forall s | s in t ensures InStep(r, pages, e', p', s) {
      forall k: Key | k.source == s
        ensures k in e' <==> k.kind == References && k.target in pages && LinksTo(r, pages[s], k.target)
      {
        assert Edge(k.source, k.target, k.kind, 1.0) in batch <==>
          k.kind == References && Link(s, k.target) in links && k.target in existing;
      }
      forall d: Dead | d.source == s ensures d in p' <==> d.target !in pages && LinksTo(r, pages[s], d.target) {
        assert d.target in ListOf(dead, s) <==> Link(s, d.target) in links && d.target !in existing;
        assert d.target in ListOf(resolved, s) <==> Link(s, d.target) in links && d.target in existing;
      }
    }
  }
}
