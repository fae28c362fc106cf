/** Union-find with path compression, as the three clustering passes use it.
  *
  * The passes differ only in which pairs they link.  The parent array is rewritten by
  * every lookup; the ghost `root` and `depth` say what does not change (the class of each
  * index) and why the recursion ends (a potential that falls towards the root).
  */
module UnionFind {

  /** Whether the link relation, tested on ordered pairs only, joins `a` and `b`. */
  predicate Adjacent(linked: (nat, nat) -> bool, a: nat, b: nat) {
    (a < b && linked(a, b)) || (b < a && linked(b, a))
  }

  ghost predicate Path(n: nat, linked: (nat, nat) -> bool, p: seq<nat>) {
    && |p| > 0
    && (forall k :: 0 <= k < |p| ==> p[k] < n)
    && (forall k :: 0 < k < |p| ==> Adjacent(linked, p[k-1], p[k]))
  }

  ghost predicate PathFrom(n: nat, linked: (nat, nat) -> bool, p: seq<nat>, a: nat, b: nat) {
    Path(n, linked, p) && p[0] == a && p[|p|-1] == b
  }

  /** The reflexive, symmetric, transitive closure of the links among `0..n`. */
  ghost predicate Connected(n: nat, linked: (nat, nat) -> bool, a: nat, b: nat) {
    exists p :: PathFrom(n, linked, p, a, b)
  }

  lemma ConnectedRefl(n: nat, linked: (nat, nat) -> bool, a: nat)
    requires a < n
    ensures Connected(n, linked, a, a)
  {
    assert PathFrom(n, linked, [a], a, a);
  }

  lemma ConnectedStep(n: nat, linked: (nat, nat) -> bool, a: nat, b: nat)
    requires a < n && b < n && Adjacent(linked, a, b)
    ensures Connected(n, linked, a, b)
  {
    assert PathFrom(n, linked, [a, b], a, b);
  }

  lemma ConnectedTrans(n: nat, linked: (nat, nat) -> bool, a: nat, b: nat, c: nat)
    requires Connected(n, linked, a, b) && Connected(n, linked, b, c)
    ensures Connected(n, linked, a, c)
  {
    var p :| PathFrom(n, linked, p, a, b);
    var q :| PathFrom(n, linked, q, b, c);
    var r := p + q[1..];
    forall k | 0 < k < |r| ensures Adjacent(linked, r[k-1], r[k]) {
      if k >= |p| { assert r[k] == q[k - |p| + 1] && r[k-1] == q[k - |p|]; }
    }
    assert PathFrom(n, linked, r, a, c);
  }

  lemma ConnectedSym(n: nat, linked: (nat, nat) -> bool, a: nat, b: nat)
    requires Connected(n, linked, a, b)
    ensures Connected(n, linked, b, a)
  {
    var p :| PathFrom(n, linked, p, a, b);
    var r := seq(|p|, i requires 0 <= i < |p| => p[|p| - 1 - i]);
    forall k | 0 < k < |r| ensures Adjacent(linked, r[k-1], r[k]) {
      assert Adjacent(linked, p[|p| - 1 - k], p[|p| - k]);
    }
    assert PathFrom(n, linked, r, b, a);
  }

  /** A marking that agrees across every link agrees along every path. */
  lemma {:induction false} PathKeepsMark(n: nat, linked: (nat, nat) -> bool, mark: seq<nat>, p: seq<nat>)
    requires |mark| == n && Path(n, linked, p)
    requires forall i, j :: 0 <= i < j < n && linked(i, j) ==> mark[i] == mark[j]
    ensures mark[p[0]] == mark[p[|p|-1]]
  {
    if |p| > 1 {
      assert Adjacent(linked, p[|p|-2], p[|p|-1]);
      PathKeepsMark(n, linked, mark, p[..|p|-1]);
    }
  }

  /** `mark` names the connected classes: equal marks exactly on connected indices. */
  ghost predicate Marks(n: nat, linked: (nat, nat) -> bool, mark: seq<nat>) {
    && |mark| == n
    && forall a, b :: 0 <= a < n && 0 <= b < n ==> (mark[a] == mark[b] <==> Connected(n, linked, a, b))
  }

  // ---------------------------------------------------------------------------------
  // The forest

  /** `parent` is an acyclic forest: `root` names each index's representative, and `depth`
    * falls strictly along every parent link that is not a self-loop. */
  ghost predicate IsForest(parent: seq<nat>, root: seq<nat>, depth: seq<nat>) {
    && |root| == |depth| == |parent|
    && (forall x {:trigger parent[x]} :: 0 <= x < |parent| ==> parent[x] < |parent|)
    && (forall x {:trigger root[x]} :: 0 <= x < |parent| ==> root[x] < |parent|)
    && (forall x {:trigger parent[x]} :: 0 <= x < |parent| ==> root[parent[x]] == root[x])
    && (forall x {:trigger root[x]} :: 0 <= x < |parent| ==> parent[root[x]] == root[x] && root[root[x]] == root[x])
    && (forall x {:trigger parent[x]} :: 0 <= x < |parent| ==> parent[x] == x || depth[parent[x]] < depth[x])
    && (forall x {:trigger root[x]} :: 0 <= x < |parent| ==> root[x] == x || depth[root[x]] < depth[x])
    && (forall x {:trigger parent[x]} :: 0 <= x < |parent| ==> (parent[x] == x <==> root[x] == x))
  }

  /** Pointing an index straight at its representative keeps the forest and its classes. */
  lemma Compressed(parent: seq<nat>, root: seq<nat>, depth: seq<nat>, x: nat)
    requires IsForest(parent, root, depth) && x < |parent|
    ensures IsForest(parent[x := root[x]], root, depth)
  {
  }

  function Relabel(root: seq<nat>, ra: nat, rb: nat): (r: seq<nat>) {
    seq(|root|, x requires 0 <= x < |root| => if root[x] == ra then rb else root[x])
  }

  function Sink(root: seq<nat>, depth: seq<nat>, ra: nat, lift: nat): seq<nat>
    requires |root| == |depth|
  {
    seq(|root|, x requires 0 <= x < |root| && |root| == |depth| =>
      if root[x] == ra then depth[x] + lift else depth[x])
  }

  /** Hanging one representative under another merges two classes and stays acyclic. */
  lemma Grafted(parent: seq<nat>, root: seq<nat>, depth: seq<nat>, ra: nat, rb: nat)
    requires IsForest(parent, root, depth) && ra < |parent| && rb < |parent| && ra != rb
    requires root[ra] == ra && root[rb] == rb
    ensures IsForest(parent[ra := rb], Relabel(root, ra, rb), Sink(root, depth, ra, depth[rb] + 1))
  {
  }

  class Forest {
    const parent: array<nat>
    ghost var root: seq<nat>
    ghost var depth: seq<nat>

    ghost predicate Valid()
      reads this, parent
    {
      IsForest(parent[..], root, depth)
    }

    constructor (n: nat)
      ensures Valid() && fresh(parent) && parent.Length == n
      ensures root == seq(n, i => i)
    {
      parent := new nat[n](i => i);
      root := seq(n, i => i);
      depth := seq(n, i => 0);
    }

    /** The representative of `x`'s class.  Compression rewrites `parent` only. */
    method Find(x: nat) returns (r: nat)
      requires Valid() && x < parent.Length
      modifies parent
      ensures Valid() && r == root[x]
      decreases depth[x]
    {
      if parent[x] != x {
        assert parent[..][x] == parent[x];
        var top := Find(parent[x]);
        Compressed(parent[..], root, depth, x);
        ghost var before := parent[..];
        parent[x] := top;
        assert parent[..] == before[x := top];
      }
      r := parent[x];
      assert parent[..][x] == r;
    }

    /** Joins the classes of `a` and `b` under `b`'s representative; no other class moves. */
    method Union(a: nat, b: nat)
      requires Valid() && a < parent.Length && b < parent.Length
      modifies this, parent
      ensures Valid()
      ensures root == Relabel(old(root), old(root)[a], old(root)[b])
    {
      var ra := Find(a);
      var rb := Find(b);
      ghost var before, was, low := parent[..], root, depth;
      if ra != rb {
        parent[ra] := rb;
        assert parent[..] == before[ra := rb];
        depth := Sink(was, low, ra, low[rb] + 1);
        root := Relabel(was, ra, rb);
        assert IsForest(before[ra := rb], root, depth) by { Grafted(before, was, low, ra, rb); }
      } else {
        assert root == Relabel(root, ra, rb);
      }
    }
  }

  /** Equal marks only on connected indices. */
  ghost predicate Sound(n: nat, linked: (nat, nat) -> bool, mark: seq<nat>) {
    && |mark| == n
    && forall a, b :: 0 <= a < n && 0 <= b < n && mark[a] == mark[b] ==> Connected(n, linked, a, b)
  }

  /** Every linked pair before `(i, j)` in scan order has equal marks. */
  ghost predicate Joined(n: nat, linked: (nat, nat) -> bool, mark: seq<nat>, i: nat, j: nat) {
    && |mark| == n
    && forall a, b :: 0 <= a < b < n && (a < i || (a == i && b < j)) && linked(a, b) ==> mark[a] == mark[b]
  }

  /** Links every pair the relation accepts, in index order, and returns the forest. */
  method LinkAll(n: nat, linked: (nat, nat) -> bool) returns (f: Forest)
    ensures f.Valid() && fresh(f) && fresh(f.parent) && f.parent.Length == n
    ensures Marks(n, linked, f.root)
  {
    f := new Forest(n);
    InitiallySound(n, linked);
    var i := 0;
    while i < n
      invariant 0 <= i <= n
      invariant f.Valid() && fresh(f) && fresh(f.parent) && f.parent.Length == n
      invariant Sound(n, linked, f.root) && Joined(n, linked, f.root, i, 0)
    {
      var j := i + 1;
      while j < n
        invariant i < j <= n
        invariant f.Valid() && fresh(f) && fresh(f.parent) && f.parent.Length == n
        invariant Sound(n, linked, f.root) && Joined(n, linked, f.root, i, j)
      {
        if linked(i, j) {
          ghost var was := f.root;
          f.Union(i, j);
          UnionSound(n, linked, was, i, j);
        }
        j := j + 1;
      }
      i := i + 1;
    }
    SoundAndJoinedMark(n, linked, f.root);
  }

  lemma InitiallySound(n: nat, linked: (nat, nat) -> bool)
    ensures Sound(n, linked, seq(n, i => i))
  {
    forall a | 0 <= a < n ensures Connected(n, linked, a, a) { ConnectedRefl(n, linked, a); }
  }

  /** Joining the classes of two linked indices joins connected indices only. */
  lemma UnionSound(n: nat, linked: (nat, nat) -> bool, was: seq<nat>, i: nat, j: nat)
    requires i < j < n && linked(i, j) && Sound(n, linked, was) && Joined(n, linked, was, i, j)
    ensures Sound(n, linked, Relabel(was, was[i], was[j]))
    ensures Joined(n, linked, Relabel(was, was[i], was[j]), i, j + 1)
  {
    var now := Relabel(was, was[i], was[j]);
    ConnectedStep(n, linked, i, j);
    forall a, b | 0 <= a < n && 0 <= b < n && now[a] == now[b] ensures Connected(n, linked, a, b) {
      if was[a] != was[b] {
        if was[a] == was[i] {
          ConnectedTrans(n, linked, a, i, j);
          ConnectedTrans(n, linked, a, j, b);
        } else {
          ConnectedSym(n, linked, i, j);
          ConnectedTrans(n, linked, a, j, i);
          ConnectedTrans(n, linked, a, i, b);
        }
      }
    }
  }

  lemma SoundAndJoinedMark(n: nat, linked: (nat, nat) -> bool, mark: seq<nat>)
    requires Sound(n, linked, mark) && Joined(n, linked, mark, n, 0)
    ensures Marks(n, linked, mark)
  {
    forall a, b | 0 <= a < n && 0 <= b < n && Connected(n, linked, a, b) ensures mark[a] == mark[b] {
      var p :| PathFrom(n, linked, p, a, b);
      PathKeepsMark(n, linked, mark, p);
    }
  }

  // ---------------------------------------------------------------------------------
  // Reading the groups off the forest

  /** The indices below `m` with mark `k`, ascending. */
  function Members(mark: seq<nat>, k: nat, m: nat): seq<nat>
    requires m <= |mark|
  {
    if m == 0 then [] else Members(mark, k, m - 1) + if mark[m-1] == k then [m-1] else []
  }

  predicate First(mark: seq<nat>, i: nat)
    requires i < |mark|
  {
    forall j :: 0 <= j < i ==> mark[j] != mark[i]
  }

  /** The marks below `m`, each once, by first appearance. */
  function Order(mark: seq<nat>, m: nat): seq<nat>
    requires m <= |mark|
  {
    if m == 0 then [] else Order(mark, m - 1) + if First(mark, m - 1) then [mark[m-1]] else []
  }

  /** One group per mark: groups by first member, members in input order. */
  function Groups(mark: seq<nat>): seq<seq<nat>> {
    GroupsOf(mark, Order(mark, |mark|))
  }

  function GroupsOf(mark: seq<nat>, order: seq<nat>): seq<seq<nat>> {
    seq(|order|, g requires 0 <= g < |order| => Members(mark, order[g], |mark|))
  }

  ghost predicate Listed(out: seq<seq<nat>>, x: nat) {
    exists g :: 0 <= g < |out| && x in out[g]
  }

  /** What a listing of the classes must be: non-empty ascending groups that cover every
    * index, ordered by first member, with two members together exactly when connected. */
  ghost predicate IsComponentListing(n: nat, linked: (nat, nat) -> bool, out: seq<seq<nat>>) {
    && (forall g :: 0 <= g < |out| ==> |out[g]| > 0)
    && (forall g, i :: 0 <= g < |out| && 0 <= i < |out[g]| ==> out[g][i] < n)
    && (forall g, i, j :: 0 <= g < |out| && 0 <= i < j < |out[g]| ==> out[g][i] < out[g][j])
    && (forall g, h :: 0 <= g < h < |out| ==> out[g][0] < out[h][0])
    && (forall x: nat :: x < n ==> Listed(out, x))
    && (forall g, h, x, y :: 0 <= g < |out| && 0 <= h < |out| && x in out[g] && y in out[h]
          ==> (g == h <==> Connected(n, linked, x, y)))
  }

  lemma {:induction false} MembersAre(mark: seq<nat>, k: nat, m: nat)
    requires m <= |mark|
    ensures forall x: nat :: x in Members(mark, k, m) <==> x < m && mark[x] == k
    ensures Ascending(Members(mark, k, m))
  {
    if m > 0 {
      MembersAre(mark, k, m - 1);
      var s := Members(mark, k, m - 1);
      forall i | 0 <= i < |s| ensures s[i] < m - 1 { assert s[i] in s; }
    }
  }

  lemma {:induction false} OrderAre(mark: seq<nat>, m: nat)
    requires m <= |mark|
    ensures forall j :: 0 <= j < m ==> mark[j] in Order(mark, m)
    ensures forall k :: k in Order(mark, m) ==> exists j :: 0 <= j < m && mark[j] == k
  {
    if m > 0 {
      OrderAre(mark, m - 1);
      if !First(mark, m - 1) {
        var j :| 0 <= j < m - 1 && mark[j] == mark[m-1];
      }
    }
  }

  ghost function Head(mark: seq<nat>, k: nat): nat {
    var s := Members(mark, k, |mark|);
    if s == [] then 0 else s[0]
  }

  lemma {:induction false} HeadsAscend(mark: seq<nat>, m: nat)
    requires m <= |mark|
    ensures forall g :: 0 <= g < |Order(mark, m)| ==> Head(mark, Order(mark, m)[g]) < m
    ensures forall g, h :: 0 <= g < h < |Order(mark, m)| ==>
      Head(mark, Order(mark, m)[g]) < Head(mark, Order(mark, m)[h])
  {
    if m > 0 {
      HeadsAscend(mark, m - 1);
      if First(mark, m - 1) {
        var s := Members(mark, mark[m-1], |mark|);
        MembersAre(mark, mark[m-1], |mark|);
        assert m - 1 in s && s[0] in s;
        assert Head(mark, mark[m-1]) == m - 1;
      }
    }
  }

  predicate Ascending(s: seq<nat>) {
    forall i, j :: 0 <= i < j < |s| ==> s[i] < s[j]
  }

  lemma HeadIn(s: seq<nat>)
    requires |s| > 0
    ensures s[0] in s
  {
  }

  lemma {:induction false} AscendingUnique(s: seq<nat>, t: seq<nat>)
    requires Ascending(s) && Ascending(t)
    requires forall x :: x in s <==> x in t
    ensures s == t
  {
    if |s| == 0 || |t| == 0 {
      if |s| != 0 { HeadIn(s); }
      if |t| != 0 { HeadIn(t); }
    } else {
      var a, b := s[|s|-1], t[|t|-1];
      assert a in t && b in s;
      assert a == b;
      var sf, tf := s[..|s|-1], t[..|t|-1];
      forall x ensures x in sf <==> x in tf {
        assert x in s <==> x in sf || x == a;
        assert x in t <==> x in tf || x == b;
        assert a !in sf && b !in tf;
      }
      AscendingUnique(sf, tf);
      assert s == sf + [a] && t == tf + [b];
    }
  }

  /** The groups read off any correct marking are a listing of the connected classes. */
  lemma GroupsListComponents(n: nat, linked: (nat, nat) -> bool, mark: seq<nat>)
    requires Marks(n, linked, mark)
    ensures IsComponentListing(n, linked, Groups(mark))
  {
    var out, order := Groups(mark), Order(mark, n);
    OrderAre(mark, n);
    HeadsAscend(mark, n);
    forall g | 0 <= g < |out|
      ensures |out[g]| > 0 && Ascending(out[g]) && out[g][0] == Head(mark, order[g])
      ensures forall x: nat :: x in out[g] <==> x < n && mark[x] == order[g]
    {
      MembersAre(mark, order[g], n);
      assert order[g] in order;
      var j :| 0 <= j < n && mark[j] == order[g];
      assert j in out[g];
    }
    forall g, i | 0 <= g < |out| && 0 <= i < |out[g]| ensures out[g][i] < n {
      assert out[g][i] in out[g];
    }
    forall x: nat | x < n ensures Listed(out, x) {
      var g :| 0 <= g < |order| && order[g] == mark[x];
      assert x in out[g];
    }
    forall g, h, x, y | 0 <= g < |out| && 0 <= h < |out| && x in out[g] && y in out[h]
      ensures g == h <==> Connected(n, linked, x, y)
    {
      if g < h { assert Head(mark, order[g]) < Head(mark, order[h]); }
      if h < g { assert Head(mark, order[h]) < Head(mark, order[g]); }
    }
  }

  ghost function Heads(out: seq<seq<nat>>): seq<nat>
    requires forall g :: 0 <= g < |out| ==> |out[g]| > 0
  {
    seq(|out|, g requires 0 <= g < |out| => out[g][0])
  }

  /** `x` is the first index of its class. */
  ghost predicate Least(n: nat, linked: (nat, nat) -> bool, x: nat) {
    forall y: nat :: y < x ==> !Connected(n, linked, y, x)
  }

  lemma HeadsAreMinima(n: nat, linked: (nat, nat) -> bool, out: seq<seq<nat>>)
    requires IsComponentListing(n, linked, out)
    ensures forall x: nat :: x in Heads(out) <==> x < n && Least(n, linked, x)
  {
    forall g, y: nat | 0 <= g < |out| && y < out[g][0] ensures !Connected(n, linked, y, out[g][0]) {
      assert Listed(out, y);
      var h :| 0 <= h < |out| && y in out[h];
      assert out[g][0] in out[g];
    }
    forall x: nat | x < n && Least(n, linked, x)
      ensures x in Heads(out)
    {
      assert Listed(out, x);
      var g :| 0 <= g < |out| && x in out[g];
      assert out[g][0] in out[g];
      assert Connected(n, linked, out[g][0], x);
      var i :| 0 <= i < |out[g]| && out[g][i] == x;
      assert Heads(out)[g] == out[g][0];
    }
  }

  /** The listing is determined by the links: no other answer meets the description. */
  lemma ListingUnique(n: nat, linked: (nat, nat) -> bool, out: seq<seq<nat>>, other: seq<seq<nat>>)
    requires IsComponentListing(n, linked, out) && IsComponentListing(n, linked, other)
    ensures out == other
  {
    HeadsAreMinima(n, linked, out);
    HeadsAreMinima(n, linked, other);
    AscendingUnique(Heads(out), Heads(other));
    forall g | 0 <= g < |out| ensures out[g] == other[g] {
      assert Heads(out)[g] == Heads(other)[g];
      GroupIsClass(n, linked, out, g);
      GroupIsClass(n, linked, other, g);
      AscendingUnique(out[g], other[g]);
    }
  }

  lemma GroupIsClass(n: nat, linked: (nat, nat) -> bool, out: seq<seq<nat>>, g: nat)
    requires IsComponentListing(n, linked, out) && g < |out|
    ensures Ascending(out[g])
    ensures forall y: nat :: y in out[g] <==> y < n && Connected(n, linked, out[g][0], y)
  {
    assert out[g][0] in out[g];
    forall y: nat | y < n && Connected(n, linked, out[g][0], y) ensures y in out[g] {
      assert Listed(out, y);
    }
  }

  /** Relations that link the same pairs have the same classes. */
  lemma SameLinks(n: nat, a: (nat, nat) -> bool, b: (nat, nat) -> bool, out: seq<seq<nat>>)
    requires IsComponentListing(n, a, out) && forall i: nat, j: nat :: a(i, j) == b(i, j)
    ensures IsComponentListing(n, b, out)
  {
    forall x: nat, y: nat ensures Connected(n, a, x, y) <==> Connected(n, b, x, y) {
      SamePaths(n, a, b, x, y);
      SamePaths(n, b, a, x, y);
    }
  }

  lemma SamePaths(n: nat, a: (nat, nat) -> bool, b: (nat, nat) -> bool, x: nat, y: nat)
    requires forall i: nat, j: nat :: a(i, j) == b(i, j)
    ensures Connected(n, a, x, y) ==> Connected(n, b, x, y)
  {
    if p :| PathFrom(n, a, p, x, y) {
      forall k | 0 < k < |p| ensures Adjacent(b, p[k-1], p[k]) { assert Adjacent(a, p[k-1], p[k]); }
      assert PathFrom(n, b, p, x, y);
    }
  }

  lemma NoLinkNoPath(n: nat, linked: (nat, nat) -> bool, p: seq<nat>)
    requires Path(n, linked, p) && forall j: nat :: j < n && j != p[0] ==> !Adjacent(linked, p[0], j)
    ensures |p| == 1
  {
    var next := if |p| > 1 then p[1] else p[0];
    assert !Adjacent(linked, p[0], next);
  }

  /** An index linked to no other is a class of its own. */
  lemma AloneInGroup(n: nat, linked: (nat, nat) -> bool, out: seq<seq<nat>>, g: nat, x: nat)
    requires IsComponentListing(n, linked, out) && g < |out| && x in out[g]
    requires forall j: nat :: j < n && j != x ==> !Adjacent(linked, x, j)
    ensures out[g] == [x]
  {
    forall y | y in out[g] ensures y == x {
      assert Connected(n, linked, x, y);
      var p :| PathFrom(n, linked, p, x, y);
      NoLinkNoPath(n, linked, p);
    }
    var second := if |out[g]| > 1 then out[g][1] else out[g][0];
    assert out[g][0] in out[g] && second in out[g];
  }

  /** Reads the groups off the forest: one lookup per index, a map from representative to
    * members, and the order in which representatives first appear. */
  method ReadGroups(f: Forest) returns (out: seq<seq<nat>>)
    requires f.Valid()
    modifies f.parent
    ensures f.Valid() && out == Groups(f.root)
  {
    var n := f.parent.Length;
    var groups: map<nat, seq<nat>> := map[];
    var order: seq<nat> := [];
    ghost var mark := f.root;
    var i := 0;
    while i < n
      invariant 0 <= i <= n && f.Valid() && f.root == mark && |mark| == n
      invariant Collected(mark, i, order, groups)
    {
      var r := f.Find(i);
      if r !in groups {
        CollectFirst(mark, i, order, groups);
        order := order + [r];
        groups := groups[r := []];
      } else {
        CollectAgain(mark, i, order, groups);
      }
      groups := groups[r := groups[r] + [i]];
      i := i + 1;
    }
    out := ListGroups(mark, order, groups);
  }

  method ListGroups(ghost mark: seq<nat>, order: seq<nat>, groups: map<nat, seq<nat>>) returns (out: seq<seq<nat>>)
    requires Collected(mark, |mark|, order, groups)
    ensures out == Groups(mark)
  {
    out := [];
    var g := 0;
    while g < |order|
      invariant 0 <= g <= |order|
      invariant out == GroupsOf(mark, order)[..g]
    {
      assert order[g] in groups;
      out := out + [groups[order[g]]];
      g := g + 1;
    }
  }

  ghost predicate Collected(mark: seq<nat>, i: nat, order: seq<nat>, groups: map<nat, seq<nat>>) {
    && i <= |mark|
    && order == Order(mark, i)
    && (forall k :: k in groups <==> k in order)
    && (forall k :: k in groups ==> groups[k] == Members(mark, k, i))
  }

  lemma NotYetSeen(mark: seq<nat>, i: nat)
    requires i < |mark| && mark[i] !in Order(mark, i)
    ensures First(mark, i) && Members(mark, mark[i], i) == []
  {
    OrderAre(mark, i);
    MembersAre(mark, mark[i], i);
    var s := Members(mark, mark[i], i);
    if |s| > 0 { HeadIn(s); }
  }

  lemma CollectFirst(mark: seq<nat>, i: nat, order: seq<nat>, groups: map<nat, seq<nat>>)
    requires Collected(mark, i, order, groups) && i < |mark| && mark[i] !in groups
    ensures Collected(mark, i + 1, order + [mark[i]], groups[mark[i] := []][mark[i] := [] + [i]])
  {
    var r := mark[i];
    NotYetSeen(mark, i);
    var next := groups[r := []][r := [] + [i]];
    forall k | k in next ensures next[k] == Members(mark, k, i + 1) {
      if k != r { assert Members(mark, k, i) + [] == Members(mark, k, i); }
    }
  }

  lemma CollectAgain(mark: seq<nat>, i: nat, order: seq<nat>, groups: map<nat, seq<nat>>)
    requires Collected(mark, i, order, groups) && i < |mark| && mark[i] in groups
    ensures Collected(mark, i + 1, order, groups[mark[i] := groups[mark[i]] + [i]])
  {
    OrderAre(mark, i);
    assert !First(mark, i);
    assert Order(mark, i + 1) == Order(mark, i);
  }

  /** The connected classes of `0..n` under `linked`, in first-member order. */
  method Components(n: nat, linked: (nat, nat) -> bool) returns (out: seq<seq<nat>>)
    ensures IsComponentListing(n, linked, out)
  {
    var f := LinkAll(n, linked);
    out := ReadGroups(f);
    GroupsListComponents(n, linked, f.root);
  }
}
