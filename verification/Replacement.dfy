/** Walking the sequel chain of an archived entity to its live successor. */
module Replacement {
  import opened Graph
  import opened Wrappers

  datatype Point = Point(id: Id, status: string, name: string)
  datatype Page = Page(id: Id, status: string, title: string)

  /** What one request sees of an agent's store. */
  datatype View = View(points: map<Id, Point>, pages: map<Id, Page>, links: Links)

  const ARCHIVED := "archived"
  const ACTIVE := "active"

  ghost predicate Filed(v: View) {
    && (forall id :: id in v.points ==> v.points[id].id == id)
    && (forall id :: id in v.pages ==> v.pages[id].id == id)
  }

  predicate LivePoint(v: View, id: Id) {
    id in v.points && v.points[id].status != ARCHIVED
  }

  predicate ArchivedPoint(v: View, id: Id) {
    id in v.points && v.points[id].status == ARCHIVED
  }

  predicate LivePage(v: View, id: Id) {
    id in v.pages && (v.pages[id].status == "" || v.pages[id].status == ACTIVE)
  }

  /** The target of the first edge of a kind, or the empty id. */
  function FirstTarget(edges: seq<Edge>, kind: Kind): Id {
    if edges == [] then "" else if edges[0].kind == kind then edges[0].target else FirstTarget(edges[1..], kind)
  }

  function FirstSource(edges: seq<Edge>, kind: Kind): Id {
    if edges == [] then "" else if edges[0].kind == kind then edges[0].source else FirstSource(edges[1..], kind)
  }

  /** The first has_page target that is a stored page. */
  function FirstPage(v: View, edges: seq<Edge>): Option<Page> {
    if edges == [] then None
    else if edges[0].kind == HasPage && edges[0].target in v.pages then Some(v.pages[edges[0].target])
    else FirstPage(v, edges[1..])
  }

  // ---------------------------------------------------------------------------------
  // What the scans find

  /** Edge `i` is the first of its kind. */
  predicate FirstOfKind(edges: seq<Edge>, kind: Kind, i: nat) {
    i < |edges| && edges[i].kind == kind && forall j :: 0 <= j < i ==> edges[j].kind != kind
  }

  /** The first edge of the kind leads to `x`. */
  ghost predicate LeadsTo(edges: seq<Edge>, kind: Kind, x: Id) {
    exists i: nat :: FirstOfKind(edges, kind, i) && edges[i].target == x
  }

  /** The first edge of the kind comes from `x`. */
  ghost predicate ComesFrom(edges: seq<Edge>, kind: Kind, x: Id) {
    exists i: nat :: FirstOfKind(edges, kind, i) && edges[i].source == x
  }

  lemma FirstOfKindUnique(edges: seq<Edge>, kind: Kind, i: nat, j: nat)
    requires FirstOfKind(edges, kind, i) && FirstOfKind(edges, kind, j)
    ensures i == j
  {
  }

  lemma FirstOfRest(edges: seq<Edge>, kind: Kind, i: nat)
    requires edges != [] && edges[0].kind != kind
    ensures FirstOfKind(edges, kind, i) <==> i > 0 && FirstOfKind(edges[1..], kind, i - 1)
  {
    if i > 0 && FirstOfKind(edges[1..], kind, i - 1) {
      forall j | 0 <= j < i ensures edges[j].kind != kind {
        if j > 0 { assert edges[1..][j-1].kind != kind; }
      }
    }
    if i > 0 && FirstOfKind(edges, kind, i) { assert edges[1..][i-1] == edges[i]; }
  }

  /** The scan returns the target of the first edge of the kind, and the empty id only if that
    * edge has an empty target or there is none. */
  lemma {:induction false} FirstTargetIs(edges: seq<Edge>, kind: Kind, x: Id)
    requires x != ""
    ensures FirstTarget(edges, kind) == x <==> LeadsTo(edges, kind, x)
  {
    if edges != [] {
      if edges[0].kind == kind {
        assert FirstOfKind(edges, kind, 0);
      } else {
        FirstTargetIs(edges[1..], kind, x);
        if i: nat :| FirstOfKind(edges, kind, i) && edges[i].target == x {
          FirstOfRest(edges, kind, i);
          assert edges[1..][i-1] == edges[i];
        }
        if i: nat :| FirstOfKind(edges[1..], kind, i) && edges[1..][i].target == x {
          FirstOfRest(edges, kind, i + 1);
          assert edges[i+1] == edges[1..][i];
        }
      }
    }
  }

  lemma {:induction false} FirstSourceIs(edges: seq<Edge>, kind: Kind, x: Id)
    requires x != ""
    ensures FirstSource(edges, kind) == x <==> ComesFrom(edges, kind, x)
  {
    if edges != [] {
      if edges[0].kind == kind {
        assert FirstOfKind(edges, kind, 0);
      } else {
        FirstSourceIs(edges[1..], kind, x);
        if i: nat :| FirstOfKind(edges, kind, i) && edges[i].source == x {
          FirstOfRest(edges, kind, i);
          assert edges[1..][i-1] == edges[i];
        }
        if i: nat :| FirstOfKind(edges[1..], kind, i) && edges[1..][i].source == x {
          FirstOfRest(edges, kind, i + 1);
          assert edges[i+1] == edges[1..][i];
        }
      }
    }
  }

  function Next(v: View, cur: Id): Id {
    FirstTarget(v.links.outs(cur), Sequel)
  }

  /** The walk goes on from `cur`: its sequel is a stored archived point. */
  predicate GoesOn(v: View, cur: Id) {
    cur != "" && Next(v, cur) != "" && ArchivedPoint(v, Next(v, cur))
  }

  /** The walk from `cur` ends after exactly `n` archived points. */
  ghost predicate StopsAfter(v: View, cur: Id, n: nat)
    decreases n
  {
    if n == 0 then !GoesOn(v, cur) else GoesOn(v, cur) && StopsAfter(v, Next(v, cur), n - 1)
  }

  ghost predicate Stops(v: View, cur: Id) {
    exists n: nat :: StopsAfter(v, cur, n)
  }

  /** The `n`-th id of the walk. */
  ghost function Nth(v: View, cur: Id, n: nat): Id
    decreases n
  {
    if n == 0 then cur else Nth(v, Next(v, cur), n - 1)
  }

  // ---------------------------------------------------------------------------------
  // When the walk ends

  lemma {:induction false} StopsAfterUnique(v: View, cur: Id, n: nat, m: nat)
    requires StopsAfter(v, cur, n) && StopsAfter(v, cur, m)
    ensures n == m
    decreases n
  {
    if n > 0 && m > 0 { StopsAfterUnique(v, Next(v, cur), n - 1, m - 1); }
  }

  lemma {:induction false} StopsFromNth(v: View, cur: Id, n: nat, i: nat)
    requires StopsAfter(v, cur, n) && i <= n
    ensures StopsAfter(v, Nth(v, cur, i), n - i) && (i > 0 ==> ArchivedPoint(v, Nth(v, cur, i)))
    decreases i
  {
    if i > 0 { StopsFromNth(v, Next(v, cur), n - 1, i - 1); }
  }

  function ArchivedIds(v: View): set<Id> {
    set id | id in v.points && v.points[id].status == ARCHIVED
  }

  lemma {:induction false} DistinctWithin(s: seq<Id>, all: set<Id>)
    requires forall i :: 0 <= i < |s| ==> s[i] in all
    requires forall i, j :: 0 <= i < j < |s| ==> s[i] != s[j]
    ensures |s| <= |all|
    decreases |s|
  {
    if s != [] {
      var last := s[|s|-1];
      DistinctWithin(s[..|s|-1], all - {last});
    }
  }

  /** A walk that ends passes each archived point at most once, so it takes no more hops than
    * there are archived points. */
  lemma StopsWithinPoints(v: View, cur: Id, n: nat)
    requires StopsAfter(v, cur, n)
    ensures forall i: nat, j: nat :: 1 <= i < j <= n ==> Nth(v, cur, i) != Nth(v, cur, j)
    ensures n <= |ArchivedIds(v)|
  {
    forall i: nat, j: nat | 1 <= i < j <= n ensures Nth(v, cur, i) != Nth(v, cur, j) {
      StopsFromNth(v, cur, n, i);
      StopsFromNth(v, cur, n, j);
      if Nth(v, cur, i) == Nth(v, cur, j) { StopsAfterUnique(v, Nth(v, cur, i), n - i, n - j); }
    }
    var s := seq(n, i requires 0 <= i < n => Nth(v, cur, i + 1));
    forall i | 0 <= i < n ensures s[i] in ArchivedIds(v) { StopsFromNth(v, cur, n, i + 1); }
    DistinctWithin(s, ArchivedIds(v));
  }

  lemma {:induction false} ForeverOn(v: View, cur: Id, k: nat)
    requires !Stops(v, cur)
    ensures GoesOn(v, Nth(v, cur, k)) && !Stops(v, Nth(v, cur, k))
    decreases k
  {
    assert StopsAfter(v, cur, 0) <==> !GoesOn(v, cur);
    if k > 0 {
      if n: nat :| StopsAfter(v, Next(v, cur), n) { assert StopsAfter(v, cur, n + 1); }
      ForeverOn(v, Next(v, cur), k - 1);
    }
  }

  /** The walk goes on at each of its first `n` ids and at the next one. */
  ghost predicate GoesOnTo(v: View, cur: Id, n: nat) {
    forall k: nat :: k <= n ==> GoesOn(v, Nth(v, cur, k))
  }

  /** The walk comes back to an id it has been at. */
  ghost predicate Loops(v: View, cur: Id) {
    exists i: nat, j: nat :: i < j && Nth(v, cur, i) == Nth(v, cur, j) && GoesOnTo(v, cur, j)
  }

  lemma {:induction false} NthStep(v: View, cur: Id, n: nat)
    ensures Nth(v, cur, n + 1) == Next(v, Nth(v, cur, n))
    decreases n
  {
    if n > 0 { NthStep(v, Next(v, cur), n - 1); }
  }

  /** A walk that never ends comes back to some archived point. */
  lemma EndlessLoops(v: View, cur: Id)
    requires !Stops(v, cur)
    ensures Loops(v, cur)
  {
    var n := |ArchivedIds(v)| + 1;
    var s := seq(n, i requires 0 <= i < n => Nth(v, cur, i + 1));
    forall i | 0 <= i < n ensures s[i] in ArchivedIds(v) {
      ForeverOn(v, cur, i);
      NthStep(v, cur, i);
    }
    if forall i, j :: 0 <= i < j < |s| ==> s[i] != s[j] { DistinctWithin(s, ArchivedIds(v)); }
    var i, j :| 0 <= i < j < n && s[i] == s[j];
    forall k: nat | k <= j + 1 ensures GoesOn(v, Nth(v, cur, k)) { ForeverOn(v, cur, k); }
    assert Nth(v, cur, i + 1) == Nth(v, cur, j + 1) && GoesOnTo(v, cur, j + 1);
  }

  lemma LoopIsEndless(v: View, cur: Id, n: nat, i: nat, j: nat)
    requires i < j && Nth(v, cur, i) == Nth(v, cur, j) && GoesOnTo(v, cur, j)
    ensures !StopsAfter(v, cur, n)
  {
    if StopsAfter(v, cur, n) {
      if n <= j {
        assert GoesOn(v, Nth(v, cur, n));
        StopsFromNth(v, cur, n, n);
      } else {
        StopsFromNth(v, cur, n, i);
        StopsFromNth(v, cur, n, j);
        StopsAfterUnique(v, Nth(v, cur, i), n - i, n - j);
      }
    }
  }

  /** The walk ends exactly when the chain of archived sequels has no cycle, and then within as
    * many hops as there are archived points. */
  lemma WalkEndsIff(v: View, cur: Id)
    ensures Stops(v, cur) <==> !Loops(v, cur)
    ensures Stops(v, cur) <==> exists k: nat :: k <= |ArchivedIds(v)| && !GoesOn(v, Nth(v, cur, k))
  {
    if n: nat :| StopsAfter(v, cur, n) {
      StopsWithinPoints(v, cur, n);
      StopsFromNth(v, cur, n, n);
      assert n <= |ArchivedIds(v)| && !GoesOn(v, Nth(v, cur, n));
      if i: nat, j: nat :| i < j && Nth(v, cur, i) == Nth(v, cur, j) && GoesOnTo(v, cur, j) {
        LoopIsEndless(v, cur, n, i, j);
      }
    }
    if !Stops(v, cur) {
      EndlessLoops(v, cur);
      forall k: nat ensures GoesOn(v, Nth(v, cur, k)) { ForeverOn(v, cur, k); }
    }
  }

  // ---------------------------------------------------------------------------------
  // The replacement

  datatype Successor = Successor(point: Id, page: Option<Page>)

  /** A page id maps back through has_page to its interest point; other ids stand for themselves. */
  function StartOf(v: View, id: Id): Id {
    if id in v.pages then FirstSource(v.links.ins(id), HasPage) else id
  }

  ghost predicate Resolvable(v: View, id: Id) {
    Stops(v, StartOf(v, id))
  }

  /** The end of a walk that stops after `n` archived points. */
  ghost function EndOf(v: View, cur: Id, n: nat): Option<Id> {
    var last := Nth(v, cur, n);
    if last != "" && Next(v, last) != "" && LivePoint(v, Next(v, last)) then Some(Next(v, last)) else None
  }

  ghost function Resolve(v: View, id: Id): Option<Successor>
    requires Resolvable(v, id)
  {
    var start := StartOf(v, id);
    var n: nat :| StopsAfter(v, start, n);
    match EndOf(v, start, n)
    case None => None
    case Some(x) => Some(Successor(x, FirstPage(v, v.links.outs(x))))
  }

  lemma ResolveIs(v: View, id: Id, n: nat)
    requires StopsAfter(v, StartOf(v, id), n)
    ensures Resolvable(v, id)
    ensures Resolve(v, id) == match EndOf(v, StartOf(v, id), n)
                              case None => None
                              case Some(x) => Some(Successor(x, FirstPage(v, v.links.outs(x))))
  {
    var start := StartOf(v, id);
    var m: nat :| StopsAfter(v, start, m) && Resolve(v, id) ==
      (match EndOf(v, start, m) case None => None case Some(x) => Some(Successor(x, FirstPage(v, v.links.outs(x)))));
    StopsAfterUnique(v, start, n, m);
  }

  /** A chain of sequels from `start` to a live point, all points between them archived. */
  ghost predicate SequelChain(v: View, start: Id, c: seq<Id>) {
    && |c| >= 2 && c[0] == start
    && (forall i {:trigger c[i]} :: 0 <= i < |c| ==> c[i] != "")
    && Linked(v, c)
    && (forall i {:trigger c[i]} :: 1 <= i < |c| - 1 ==> ArchivedPoint(v, c[i]))
    && LivePoint(v, c[|c|-1])
  }

  /** The edge taken at each id of a chain of sequels. */
  ghost predicate Linked(v: View, c: seq<Id>) {
    forall i {:trigger Next(v, c[i])} :: 0 <= i < |c| - 1 ==> Next(v, c[i]) == c[i+1]
  }

  lemma ChainPrepend(v: View, cur: Id, rest: seq<Id>)
    requires GoesOn(v, cur) && SequelChain(v, Next(v, cur), rest)
    ensures SequelChain(v, cur, [cur] + rest)
  {
    var c := [cur] + rest;
    assert c[0] == cur && c[1] == rest[0];
    forall i {:trigger Next(v, c[i])} | 0 <= i < |c| - 1 ensures Next(v, c[i]) == c[i+1] {
      if i > 0 { assert c[i] == rest[i-1] && Next(v, rest[i-1]) == rest[i]; }
    }
    forall i {:trigger c[i]} | 1 <= i < |c| - 1 ensures ArchivedPoint(v, c[i]) {
      assert c[i] == rest[i-1];
    }
  }

  lemma LinkedRest(v: View, c: seq<Id>)
    requires |c| > 0 && Linked(v, c)
    ensures Linked(v, c[1..])
  {
    var rest := c[1..];
    forall i {:trigger Next(v, rest[i])} | 0 <= i < |rest| - 1 ensures Next(v, rest[i]) == rest[i+1] {
      assert Next(v, c[i+1]) == c[i+2];
    }
  }

  lemma {:induction false} ChainOfWalk(v: View, cur: Id, n: nat) returns (c: seq<Id>)
    requires StopsAfter(v, cur, n) && EndOf(v, cur, n).Some?
    ensures SequelChain(v, cur, c) && c[|c|-1] == EndOf(v, cur, n).value && |c| == n + 2
    decreases n
  {
    if n == 0 {
      c := [cur, Next(v, cur)];
    } else {
      var rest := ChainOfWalk(v, Next(v, cur), n - 1);
      ChainPrepend(v, cur, rest);
      c := [cur] + rest;
    }
  }

  lemma {:induction false} WalkOfChain(v: View, cur: Id, c: seq<Id>)
    requires SequelChain(v, cur, c)
    ensures StopsAfter(v, cur, |c| - 2) && EndOf(v, cur, |c| - 2) == Some(c[|c|-1])
    decreases |c|
  {
    assert Next(v, c[0]) == c[1];
    if |c| > 2 {
      var rest := c[1..];
      LinkedRest(v, c);
      WalkOfChain(v, c[1], rest);
    }
  }

  /** The first sequel edge out of `a` leads to `b`. */
  ghost predicate SequelTo(v: View, a: Id, b: Id) {
    LeadsTo(v.links.outs(a), Sequel, b)
  }

  /** A chain of first sequel edges from `start` to a live point, all points between archived. */
  ghost predicate EdgeChain(v: View, start: Id, c: seq<Id>) {
    && |c| >= 2 && c[0] == start
    && (forall i {:trigger c[i]} :: 0 <= i < |c| ==> c[i] != "")
    && (forall i {:trigger c[i]} :: 0 <= i < |c| - 1 ==> SequelTo(v, c[i], c[i+1]))
    && (forall i {:trigger c[i]} :: 0 < i < |c| ==> c[i] in v.points)
    && (forall i {:trigger c[i]} :: 0 < i < |c| - 1 ==> v.points[c[i]].status == "archived")
    && v.points[c[|c|-1]].status != "archived"
  }

  /** Where the walk for `id` starts: at the source of the first has_page edge into a page, and
    * at any other id itself. */
  ghost predicate StartsAt(v: View, id: Id, start: Id) {
    if id in v.pages then ComesFrom(v.links.ins(id), HasPage, start) else start == id
  }

  lemma StartsAtIff(v: View, id: Id, start: Id)
    requires start != ""
    ensures StartsAt(v, id, start) <==> StartOf(v, id) == start
  {
    if id in v.pages { FirstSourceIs(v.links.ins(id), HasPage, start); }
  }

  lemma EdgeChainIff(v: View, start: Id, c: seq<Id>)
    ensures EdgeChain(v, start, c) <==> SequelChain(v, start, c)
  {
    if |c| >= 2 && forall i {:trigger c[i]} :: 0 <= i < |c| ==> c[i] != "" {
      forall i | 0 <= i < |c| - 1 ensures SequelTo(v, c[i], c[i+1]) <==> Next(v, c[i]) == c[i+1] {
        FirstTargetIs(v.links.outs(c[i]), Sequel, c[i+1]);
      }
    }
  }

  lemma SuccessorIffWalk(v: View, id: Id, x: Id)
    requires Resolvable(v, id)
    ensures (Resolve(v, id).Some? && Resolve(v, id).value.point == x) <==>
      exists c :: SequelChain(v, StartOf(v, id), c) && c[|c|-1] == x
  {
    var start := StartOf(v, id);
    var n: nat :| StopsAfter(v, start, n) && (Resolve(v, id).Some? <==> EndOf(v, start, n).Some?)
      && (Resolve(v, id).Some? ==> Resolve(v, id).value.point == EndOf(v, start, n).value);
    if EndOf(v, start, n).Some? {
      var c := ChainOfWalk(v, start, n);
    }
    forall c | SequelChain(v, start, c) ensures EndOf(v, start, n) == Some(c[|c|-1]) {
      WalkOfChain(v, start, c);
      StopsAfterUnique(v, start, n, |c| - 2);
    }
  }

  /** A chain of stored edges that says `x` has replaced `id`. */
  ghost predicate ReplacedBy(v: View, id: Id, x: Id) {
    exists start, c :: StartsAt(v, id, start) && EdgeChain(v, start, c) && c[|c|-1] == x
  }

  /** A successor is returned exactly when a chain of first sequel edges over archived points
    * ends at it, and its page is its first stored has_page target. */
  lemma SuccessorIffChain(v: View, id: Id, x: Id)
    requires Resolvable(v, id)
    ensures (Resolve(v, id).Some? && Resolve(v, id).value.point == x) <==> ReplacedBy(v, id, x)
    ensures Resolve(v, id).Some? ==>
      IsFirstPage(v, v.links.outs(Resolve(v, id).value.point), Resolve(v, id).value.page)
  {
    SuccessorIffWalk(v, id, x);
    if Resolve(v, id).Some? { FirstPageIs(v, v.links.outs(Resolve(v, id).value.point)); }
    if c :| SequelChain(v, StartOf(v, id), c) && c[|c|-1] == x {
      assert c[0] != "";
      StartsAtIff(v, id, c[0]);
      EdgeChainIff(v, c[0], c);
    }
    if start, c :| StartsAt(v, id, start) && EdgeChain(v, start, c) && c[|c|-1] == x {
      assert c[0] != "";
      StartsAtIff(v, id, start);
      EdgeChainIff(v, start, c);
    }
  }

  /** Edge `i` is a has_page edge to a stored page. */
  predicate ToPage(v: View, edges: seq<Edge>, i: nat) {
    i < |edges| && edges[i].kind == HasPage && edges[i].target in v.pages
  }

  /** The target of the first has_page edge that leads to a stored page, if there is one. */
  ghost predicate IsFirstPage(v: View, edges: seq<Edge>, p: Option<Page>) {
    match p
    case Some(page) =>
      exists i: nat :: ToPage(v, edges, i) && page == v.pages[edges[i].target]
        && forall j: nat :: j < i ==> !ToPage(v, edges, j)
    case None => forall i: nat :: !ToPage(v, edges, i)
  }

  lemma {:induction false} FirstPageIs(v: View, edges: seq<Edge>)
    ensures IsFirstPage(v, edges, FirstPage(v, edges))
  {
    if edges != [] {
      var rest := edges[1..];
      forall i: nat | i > 0 ensures ToPage(v, edges, i) <==> ToPage(v, rest, i - 1) {}
      if ToPage(v, edges, 0) {
        assert forall j: nat :: j < 0 ==> !ToPage(v, edges, j);
      } else {
        FirstPageIs(v, rest);
        if FirstPage(v, rest).Some? {
          var i: nat :| ToPage(v, rest, i) && FirstPage(v, rest).value == v.pages[rest[i].target]
            && forall j: nat :: j < i ==> !ToPage(v, rest, j);
          assert ToPage(v, edges, i + 1) && edges[i+1] == rest[i];
          forall j: nat | j < i + 1 ensures !ToPage(v, edges, j) {
            if j > 0 { assert !ToPage(v, rest, j - 1); }
          }
        } else {
          forall i: nat ensures !ToPage(v, edges, i) {
            if i > 0 { assert !ToPage(v, rest, i - 1); }
          }
        }
      }
    }
  }

  /** A page returned is stored under its own id. */
  lemma FirstPageIsStored(v: View, edges: seq<Edge>)
    requires Filed(v) && FirstPage(v, edges).Some?
    ensures var p := FirstPage(v, edges).value; p.id in v.pages && v.pages[p.id] == p
  {
    FirstPageIs(v, edges);
  }

  // ---------------------------------------------------------------------------------
  // The loop

  method FindTarget(edges: seq<Edge>, kind: Kind) returns (t: Id)
    ensures t == FirstTarget(edges, kind)
  {
    var i := 0;
    assert edges[0..] == edges;
    while i < |edges|
      invariant 0 <= i <= |edges| && FirstTarget(edges, kind) == FirstTarget(edges[i..], kind)
    {
      assert edges[i..][1..] == edges[i+1..];
      if edges[i].kind == kind { return edges[i].target; }
      i := i + 1;
    }
    t := "";
  }

  method FindSource(edges: seq<Edge>, kind: Kind) returns (t: Id)
    ensures t == FirstSource(edges, kind)
  {
    var i := 0;
    assert edges[0..] == edges;
    while i < |edges|
      invariant 0 <= i <= |edges| && FirstSource(edges, kind) == FirstSource(edges[i..], kind)
    {
      assert edges[i..][1..] == edges[i+1..];
      if edges[i].kind == kind { return edges[i].source; }
      i := i + 1;
    }
    t := "";
  }

  method FindPage(v: View, edges: seq<Edge>) returns (p: Option<Page>)
    ensures p == FirstPage(v, edges)
  {
    var i := 0;
    assert edges[0..] == edges;
    while i < |edges|
      invariant 0 <= i <= |edges| && FirstPage(v, edges) == FirstPage(v, edges[i..])
    {
      assert edges[i..][1..] == edges[i+1..];
      if edges[i].kind == HasPage && edges[i].target in v.pages { return Some(v.pages[edges[i].target]); }
      i := i + 1;
    }
    p := None;
  }

  /** The live successor of an entity.  The walk keeps no record of where it has been, so it
    * is called only where the chain ends. */
  method ResolveReplacement(v: View, id: Id) returns (rep: Option<Successor>)
    requires Resolvable(v, id)
    ensures rep == Resolve(v, id)
  {
    var cur := id;
    if id in v.pages {
      cur := FindSource(v.links.ins(id), HasPage);
    }
    ghost var start := cur;
    ghost var n: nat :| StopsAfter(v, start, n) && Resolve(v, id) ==
      (match EndOf(v, start, n) case None => None case Some(x) => Some(Successor(x, FirstPage(v, v.links.outs(x)))));
    ghost var left: nat := n;
    while cur != ""
      invariant StopsAfter(v, cur, left) && EndOf(v, cur, left) == EndOf(v, start, n)
      decreases left
    {
      var next := FindTarget(v.links.outs(cur), Sequel);
      if next == "" || next !in v.points {
        return None;
      }
      if v.points[next].status == ARCHIVED {
        left := left - 1;
        cur := next;
        continue;
      }
      var page := FindPage(v, v.links.outs(next));
      return Some(Successor(next, page));
    }
    rep := None;
  }

  /** Two archived points that replace each other: the walk from either never ends. */
  lemma CycleNeverEnds(v: View, a: Id, b: Id)
    requires a != "" && b != "" && ArchivedPoint(v, a) && ArchivedPoint(v, b)
    requires Next(v, a) == b && Next(v, b) == a
    ensures !Stops(v, a)
  {
    if n: nat :| StopsAfter(v, a, n) { CycleStep(v, a, b, n); }
  }

  lemma {:induction false} CycleStep(v: View, a: Id, b: Id, n: nat)
    requires a != "" && b != "" && ArchivedPoint(v, a) && ArchivedPoint(v, b)
    requires Next(v, a) == b && Next(v, b) == a
    ensures !StopsAfter(v, a, n)
    decreases n
  {
    if n > 0 { CycleStep(v, b, a, n - 1); }
  }
}
