/** Where stage s2 puts each current point, told by the classes of similar points and by what
  * each point's search gave, without the loops that put it there.
  */
module Placement {
  import opened Selection
  import opened UnionFind
  import opened Conflicts

  /** Nothing in history matches the point and no other point is connected to it. */
  ghost predicate Lone<V>(n: nat, linked: (nat, nat) -> bool, hist: seq<seq<Hist<V>>>, x: nat)
    requires |hist| == n
  {
    x < n && hist[x] == [] && forall y: nat :: y < n && Connected(n, linked, x, y) ==> y == x
  }

  /** The component has the member at position `x`. */
  predicate HasMember<V>(c: Component<V>, x: nat) {
    exists k :: 0 <= k < |c.members| && c.members[k].pos == x
  }

  /** The members are one class: in order, each with its vector. */
  ghost predicate MembersAreClass<V>(n: nat, linked: (nat, nat) -> bool, vecs: seq<V>, c: Component<V>)
    requires |vecs| == n
  {
    && c.members != []
    && (forall k :: 0 <= k < |c.members| ==> c.members[k].pos < n && c.members[k].vec == vecs[c.members[k].pos])
    && (forall i, j :: 0 <= i < j < |c.members| ==> c.members[i].pos < c.members[j].pos)
    && (forall x: nat :: HasMember(c, x) <==> x < n && Connected(n, linked, c.members[0].pos, x))
  }

  /** What the search of each member gave. */
  function Found<V>(hist: seq<seq<Hist<V>>>, c: Component<V>): seq<seq<Hist<V>>>
    requires forall k :: 0 <= k < |c.members| ==> c.members[k].pos < |hist|
  {
    seq(|c.members|, k requires 0 <= k < |c.members| => hist[c.members[k].pos])
  }

  /** The history is that of the members, one after the other. */
  ghost predicate HistoryIsMembers<V>(hist: seq<seq<Hist<V>>>, c: Component<V>)
    requires forall k :: 0 <= k < |c.members| ==> c.members[k].pos < |hist|
  {
    exists cuts :: Blocks(c.hist, cuts, Found(hist, c))
  }

  ghost predicate IsClassComponent<V>(n: nat, linked: (nat, nat) -> bool, vecs: seq<V>, hist: seq<seq<Hist<V>>>,
                                      c: Component<V>)
    requires |vecs| == |hist| == n
  {
    MembersAreClass(n, linked, vecs, c) && HistoryIsMembers(hist, c)
  }

  // ---------------------------------------------------------------------------------
  // One group

  function Made<V>(vecs: seq<V>, hist: seq<seq<Hist<V>>>, g: seq<nat>): Component<V>
    requires |vecs| == |hist| && forall k :: 0 <= k < |g| ==> g[k] < |vecs|
  {
    Component(MembersOf(vecs, g), HistOf(hist, g))
  }

  lemma {:induction false} HistBlocks<V>(hist: seq<seq<Hist<V>>>, g: seq<nat>)
    returns (cuts: seq<nat>, parts: seq<seq<Hist<V>>>)
    requires forall k :: 0 <= k < |g| ==> g[k] < |hist|
    ensures Blocks(HistOf(hist, g), cuts, parts)
    ensures |parts| == |g| && forall k :: 0 <= k < |g| ==> parts[k] == hist[g[k]]
    decreases |g|
  {
    if g == [] {
      NoBlocks<Hist<V>>();
      cuts, parts := [0], [];
    } else {
      var front, x := g[..|g|-1], g[|g|-1];
      cuts, parts := HistBlocks(hist, front);
      OneMoreBlock(HistOf(hist, front), cuts, parts, hist[x]);
      cuts, parts := cuts + [|HistOf(hist, front)| + |hist[x]|], parts + [hist[x]];
    }
  }

  lemma {:induction false} MadeIsClass<V>(n: nat, linked: (nat, nat) -> bool, vecs: seq<V>, hist: seq<seq<Hist<V>>>,
                                          groups: seq<seq<nat>>, g: nat)
    requires |vecs| == |hist| == n && IsComponentListing(n, linked, groups) && g < |groups|
    ensures forall k :: 0 <= k < |groups[g]| ==> groups[g][k] < n
    ensures IsClassComponent(n, linked, vecs, hist, Made(vecs, hist, groups[g]))
    ensures forall x: nat :: HasMember(Made(vecs, hist, groups[g]), x) <==> x in groups[g]
  {
    var grp := groups[g];
    var c := Made(vecs, hist, grp);
    GroupIsClass(n, linked, groups, g);
    forall x: nat ensures HasMember(c, x) <==> x in grp {
      if x in grp {
        var k :| 0 <= k < |grp| && grp[k] == x;
        assert c.members[k].pos == x;
      }
      if k :| 0 <= k < |c.members| && c.members[k].pos == x { assert grp[k] == x; }
    }
    var cuts, parts := HistBlocks(hist, grp);
    assert parts == Found(hist, c);
  }

  lemma LoneIsAlone<V>(n: nat, linked: (nat, nat) -> bool, hist: seq<seq<Hist<V>>>, groups: seq<seq<nat>>, g: nat,
                       x: nat)
    requires |hist| == n && IsComponentListing(n, linked, groups) && g < |groups| && x in groups[g]
    requires forall k :: 0 <= k < |groups[g]| ==> groups[g][k] < n
    ensures x < n && (Lone(n, linked, hist, x) <==> IsAlone(hist, groups[g]))
    ensures IsAlone(hist, groups[g]) ==> groups[g] == [x]
  {
    var grp := groups[g];
    var i :| 0 <= i < |grp| && grp[i] == x;
    if IsAlone(hist, grp) {
      assert grp == [x];
      forall y: nat | y < n && Connected(n, linked, x, y) ensures y == x {
        GroupIsClass(n, linked, groups, g);
      }
    }
    if Lone(n, linked, hist, x) {
      assert |grp| <= 1 || grp[0] < grp[1];
      forall k | 0 <= k < |grp| ensures grp[k] == x {
        assert grp[k] in grp && Connected(n, linked, x, grp[k]);
      }
    }
  }

  // ---------------------------------------------------------------------------------
  // All groups

  /** The groups at `alone` are those that stay alone, and `iso` holds their members. */
  ghost predicate IsolatedFrom<V>(groups: seq<seq<nat>>, hist: seq<seq<Hist<V>>>, alone: seq<nat>, iso: seq<nat>)
    requires Within(groups, |hist|)
  {
    && Increasing(alone) && |alone| == |iso|
    && (forall k :: 0 <= k < |alone| ==>
          alone[k] < |groups| && IsAlone(hist, groups[alone[k]]) && iso[k] == groups[alone[k]][0])
    && (forall g: nat :: g < |groups| && IsAlone(hist, groups[g]) ==> g in alone)
  }

  lemma OneMoreIsolated<V>(groups: seq<seq<nat>>, g: seq<nat>, hist: seq<seq<Hist<V>>>, alone: seq<nat>, iso: seq<nat>)
    requires Within(groups, |hist|) && forall k :: 0 <= k < |g| ==> g[k] < |hist|
    requires IsolatedFrom(groups, hist, alone, iso)
    ensures Within(groups + [g], |hist|)
    ensures if IsAlone(hist, g) then IsolatedFrom(groups + [g], hist, alone + [|groups|], iso + [g[0]])
            else IsolatedFrom(groups + [g], hist, alone, iso)
  {
    var next: seq<nat> := alone + [|groups|];
    forall i | i in alone ensures i in next {}
    assert next[|alone|] == |groups|;
  }

  lemma {:induction false} IsolatedGo<V>(groups: seq<seq<nat>>, hist: seq<seq<Hist<V>>>) returns (alone: seq<nat>)
    requires Within(groups, |hist|)
    ensures IsolatedFrom(groups, hist, alone, IsolatedOf(groups, hist))
    decreases |groups|
  {
    if groups == [] {
      alone := [];
    } else {
      var front, g := groups[..|groups|-1], groups[|groups|-1];
      alone := IsolatedGo(front, hist);
      OneMoreIsolated(front, g, hist, alone, IsolatedOf(front, hist));
      assert groups == front + [g];
      assert IsolatedOf(front, hist) + [] == IsolatedOf(front, hist);
      if IsAlone(hist, g) { alone := alone + [|front|]; }
    }
  }

  /** The groups at `others` are the rest, and `comps` holds what is made of them. */
  ghost predicate ComponentsFrom<V>(groups: seq<seq<nat>>, vecs: seq<V>, hist: seq<seq<Hist<V>>>, others: seq<nat>,
                                    comps: seq<Component<V>>)
    requires |vecs| == |hist| && Within(groups, |vecs|)
  {
    && Increasing(others) && |others| == |comps|
    && (forall k :: 0 <= k < |others| ==>
          others[k] < |groups| && !IsAlone(hist, groups[others[k]]) && comps[k] == Made(vecs, hist, groups[others[k]]))
    && (forall g: nat :: g < |groups| && !IsAlone(hist, groups[g]) ==> g in others)
  }

  lemma OneMoreComponent<V>(groups: seq<seq<nat>>, g: seq<nat>, vecs: seq<V>, hist: seq<seq<Hist<V>>>,
                            others: seq<nat>, comps: seq<Component<V>>)
    requires |vecs| == |hist| && Within(groups, |vecs|) && forall k :: 0 <= k < |g| ==> g[k] < |vecs|
    requires ComponentsFrom(groups, vecs, hist, others, comps)
    ensures Within(groups + [g], |vecs|)
    ensures if IsAlone(hist, g) then ComponentsFrom(groups + [g], vecs, hist, others, comps)
            else ComponentsFrom(groups + [g], vecs, hist, others + [|groups|], comps + [Made(vecs, hist, g)])
  {
    var next: seq<nat> := others + [|groups|];
    forall i | i in others ensures i in next {}
    assert next[|others|] == |groups|;
  }

  lemma {:induction false} ComponentsGo<V>(groups: seq<seq<nat>>, vecs: seq<V>, hist: seq<seq<Hist<V>>>)
    returns (others: seq<nat>)
    requires |vecs| == |hist| && Within(groups, |vecs|)
    ensures ComponentsFrom(groups, vecs, hist, others, ComponentsOf(groups, vecs, hist))
    decreases |groups|
  {
    if groups == [] {
      others := [];
    } else {
      var front, g := groups[..|groups|-1], groups[|groups|-1];
      others := ComponentsGo(front, vecs, hist);
      OneMoreComponent(front, g, vecs, hist, others, ComponentsOf(front, vecs, hist));
      assert groups == front + [g];
      assert ComponentsOf(front, vecs, hist) + [] == ComponentsOf(front, vecs, hist);
      if !IsAlone(hist, g) { others := others + [|front|]; }
    }
  }

  /** A point is isolated exactly when it is alone in its class and nothing in history matches
    * it; isolated points are listed in order. */
  lemma {:induction false} IsolatedIff<V>(linked: (nat, nat) -> bool, groups: seq<seq<nat>>, hist: seq<seq<Hist<V>>>)
    requires Within(groups, |hist|) && IsComponentListing(|hist|, linked, groups)
    ensures forall x: nat :: x in IsolatedOf(groups, hist) <==> Lone(|hist|, linked, hist, x)
    ensures Increasing(IsolatedOf(groups, hist))
  {
    var n, iso := |hist|, IsolatedOf(groups, hist);
    var alone := IsolatedGo(groups, hist);
    forall x: nat ensures x in iso <==> Lone(n, linked, hist, x) {
      if k :| 0 <= k < |iso| && iso[k] == x {
        assert groups[alone[k]][0] in groups[alone[k]];
        LoneIsAlone(n, linked, hist, groups, alone[k], x);
      }
      if Lone(n, linked, hist, x) {
        assert Listed(groups, x);
        var g: nat :| g < |groups| && x in groups[g];
        LoneIsAlone(n, linked, hist, groups, g, x);
        var k :| 0 <= k < |alone| && alone[k] == g;
        assert iso[k] == x;
      }
    }
  }

  /** Some component of the list is the one with member `x`, and no other has it. */
  ghost predicate InOneOnly<V>(comps: seq<Component<V>>, x: nat) {
    exists ci: nat :: ci < |comps| && HasMember(comps[ci], x)
      && forall d: nat :: d < |comps| && HasMember(comps[d], x) ==> d == ci
  }

  ghost predicate ByFirstMember<V>(comps: seq<Component<V>>) {
    forall i, j :: 0 <= i < j < |comps| ==>
      comps[i].members != [] && comps[j].members != [] && comps[i].members[0].pos < comps[j].members[0].pos
  }

  lemma {:induction false} HoldersAre<V>(n: nat, linked: (nat, nat) -> bool, groups: seq<seq<nat>>, vecs: seq<V>,
                                         hist: seq<seq<Hist<V>>>, others: seq<nat>, comps: seq<Component<V>>,
                                         x: nat, g: nat)
    requires |vecs| == |hist| == n && Within(groups, n) && IsComponentListing(n, linked, groups)
    requires ComponentsFrom(groups, vecs, hist, others, comps) && g < |groups| && x in groups[g]
    ensures forall d: nat :: d < |comps| ==> (HasMember(comps[d], x) <==> others[d] == g)
  {
    var i :| 0 <= i < |groups[g]| && groups[g][i] == x;
    ConnectedRefl(n, linked, x);
    forall d: nat | d < |comps| ensures HasMember(comps[d], x) <==> others[d] == g {
      MadeIsClass(n, linked, vecs, hist, groups, others[d]);
    }
  }

  /** What becomes of point `x` among the components. */
  ghost predicate HeldOnceUnlessLone<V>(n: nat, linked: (nat, nat) -> bool, hist: seq<seq<Hist<V>>>,
                                        comps: seq<Component<V>>, x: nat)
    requires |hist| == n
  {
    if Lone(n, linked, hist, x) then forall d: nat :: d < |comps| ==> !HasMember(comps[d], x) else InOneOnly(comps, x)
  }

  /** When the component at place `d` is the one with member `x` exactly for `others[d] == g`. */
  lemma HeldAt<V>(others: seq<nat>, comps: seq<Component<V>>, x: nat, g: nat)
    requires Increasing(others) && |others| == |comps|
    requires forall d: nat :: d < |comps| ==> (HasMember(comps[d], x) <==> others[d] == g)
    ensures if g in others then InOneOnly(comps, x) else forall d: nat :: d < |comps| ==> !HasMember(comps[d], x)
  {
    if g in others {
      var k: nat :| k < |others| && others[k] == g;
      assert HasMember(comps[k], x);
      forall d: nat | d < |comps| && HasMember(comps[d], x) ensures d == k {
        assert others[d] == others[k];
      }
    }
  }

  lemma {:induction false} PointIsHeld<V>(n: nat, linked: (nat, nat) -> bool, groups: seq<seq<nat>>, vecs: seq<V>,
                                          hist: seq<seq<Hist<V>>>, others: seq<nat>, comps: seq<Component<V>>, x: nat)
    requires |vecs| == |hist| == n && Within(groups, n) && IsComponentListing(n, linked, groups)
    requires ComponentsFrom(groups, vecs, hist, others, comps) && x < n
    ensures HeldOnceUnlessLone(n, linked, hist, comps, x)
  {
    assert Listed(groups, x);
    var g: nat :| g < |groups| && x in groups[g];
    assert Lone(n, linked, hist, x) <==> g !in others by {
      LoneIsAlone(n, linked, hist, groups, g, x);
    }
    assert InOneOnly(comps, x) || g !in others by {
      HoldersAre(n, linked, groups, vecs, hist, others, comps, x, g);
      HeldAt(others, comps, x, g);
    }
    if g !in others {
      HoldersAre(n, linked, groups, vecs, hist, others, comps, x, g);
      HeldAt(others, comps, x, g);
    }
  }

  lemma ComponentsInOrder<V>(n: nat, linked: (nat, nat) -> bool, groups: seq<seq<nat>>, vecs: seq<V>,
                             hist: seq<seq<Hist<V>>>, others: seq<nat>, comps: seq<Component<V>>)
    requires |vecs| == |hist| == n && Within(groups, n) && IsComponentListing(n, linked, groups)
    requires ComponentsFrom(groups, vecs, hist, others, comps)
    ensures ByFirstMember(comps)
  {
    forall i, j | 0 <= i < j < |comps|
      ensures comps[i].members != [] && comps[j].members != [] && comps[i].members[0].pos < comps[j].members[0].pos
    {
      assert groups[others[i]][0] < groups[others[j]][0];
    }
  }

  /** Every component is a class of points with its history, every point that is not isolated
    * belongs to exactly one component, and components follow each other by first member. */
  lemma {:induction false} ComponentsAreClasses<V>(linked: (nat, nat) -> bool, groups: seq<seq<nat>>, vecs: seq<V>,
                                                   hist: seq<seq<Hist<V>>>)
    requires |vecs| == |hist| && Within(groups, |vecs|) && IsComponentListing(|vecs|, linked, groups)
    ensures var comps := ComponentsOf(groups, vecs, hist);
      && (forall d :: 0 <= d < |comps| ==> IsClassComponent(|vecs|, linked, vecs, hist, comps[d]))
      && (forall x: nat :: x < |vecs| ==> HeldOnceUnlessLone(|vecs|, linked, hist, comps, x))
      && ByFirstMember(comps)
  {
    var n, comps := |vecs|, ComponentsOf(groups, vecs, hist);
    var others := ComponentsGo(groups, vecs, hist);
    forall d | 0 <= d < |comps| ensures IsClassComponent(n, linked, vecs, hist, comps[d]) {
      MadeIsClass(n, linked, vecs, hist, groups, others[d]);
    }
    forall x: nat | x < n ensures HeldOnceUnlessLone(n, linked, hist, comps, x) {
      PointIsHeld(n, linked, groups, vecs, hist, others, comps, x);
    }
    ComponentsInOrder(n, linked, groups, vecs, hist, others, comps);
  }
}
