/** What s2 keeps and what it loses: every current point is accounted for. */
module ConflictTheorems {
  import opened Selection
  import opened UnionFind
  import opened StableOrder
  import opened Clustering
  import opened Conflicts
  import opened ConflictQueues
  import opened Wrappers

  // ---------------------------------------------------------------------------------
  // Counting points

  /** How often position `x` is a member of `c`. */
  function Times<V>(c: Component<V>, x: nat): nat {
    multiset(seq(|c.members|, k requires 0 <= k < |c.members| => c.members[k].pos))[x]
  }

  /** How often position `x` occurs in the components. */
  function Total<V>(cs: seq<Component<V>>, x: nat): nat {
    if cs == [] then 0 else Total(cs[..|cs|-1], x) + Times(cs[|cs|-1], x)
  }

  function TotalQueues<V>(qs: seq<seq<Component<V>>>, x: nat): nat {
    if qs == [] then 0 else TotalQueues(qs[..|qs|-1], x) + Total(qs[|qs|-1], x)
  }

  /** How often `x` occurs in the components below `m` whose index is in `chosen`. */
  function TotalIn<V>(comps: seq<Component<V>>, chosen: set<nat>, m: nat, x: nat): nat
    requires m <= |comps|
  {
    if m == 0 then 0
    else TotalIn(comps, chosen, m - 1, x) + if m - 1 in chosen then Times(comps[m-1], x) else 0
  }

  /** The components that were a queue of one: they are flagged as used and then put
    * nowhere. */
  function Dropped<V>(comps: seq<Component<V>>, qs: seq<seq<nat>>): seq<Component<V>>
    requires forall k :: 0 <= k < |qs| ==> Bounded(qs[k], |comps|)
  {
    if qs == [] then []
    else
      var q := qs[|qs|-1];
      assert Bounded(q, |comps|);
      Dropped(comps, qs[..|qs|-1]) + if |q| == 1 then [comps[q[0]]] else []
  }

  /** The components a run loses. */
  ghost function Lost<V>(comps: seq<Component<V>>, order: seq<string>): seq<Component<V>> {
    QueueListApart(comps, order, |order|);
    Dropped(comps, QueueList(comps, order, |order|))
  }

  lemma {:induction false} TotalAppend<V>(a: seq<Component<V>>, b: seq<Component<V>>, x: nat)
    ensures Total(a + b, x) == Total(a, x) + Total(b, x)
  {
    if b == [] {
      assert a + b == a;
    } else {
      assert (a + b)[..|a + b|-1] == a + b[..|b|-1];
      TotalAppend(a, b[..|b|-1], x);
    }
  }

  lemma {:induction false} TotalInsert<V>(t: seq<Component<V>>, c: Component<V>, key: Component<V> -> real, x: nat)
    ensures Total(InsertLast(t, c, key), x) == Total(t, x) + Times(c, x)
  {
    if |t| == 0 || key(t[|t|-1]) >= key(c) {
      assert (t + [c])[..|t|] == t;
    } else {
      var front, z := t[..|t|-1], t[|t|-1];
      TotalInsert(front, c, key, x);
      assert (InsertLast(front, c, key) + [z])[..|t|] == InsertLast(front, c, key);
    }
  }

  lemma {:induction false} TotalSort<V>(s: seq<Component<V>>, key: Component<V> -> real, x: nat)
    ensures Total(Sort(s, key), x) == Total(s, x)
  {
    if s != [] {
      TotalSort(s[..|s|-1], key, x);
      TotalInsert(Sort(s[..|s|-1], key), s[|s|-1], key, x);
    }
  }

  lemma {:induction false} TotalInDisjoint<V>(comps: seq<Component<V>>, a: set<nat>, b: set<nat>, m: nat, x: nat)
    requires m <= |comps| && a !! b
    ensures TotalIn(comps, a + b, m, x) == TotalIn(comps, a, m, x) + TotalIn(comps, b, m, x)
  {
    if m > 0 { TotalInDisjoint(comps, a, b, m - 1, x); }
  }

  lemma {:induction false} TotalInOne<V>(comps: seq<Component<V>>, ci: nat, m: nat, x: nat)
    requires m <= |comps|
    ensures TotalIn(comps, {ci}, m, x) == if ci < m then Times(comps[ci], x) else 0
  {
    if m > 0 { TotalInOne(comps, ci, m - 1, x); }
  }

  lemma {:induction false} TotalInNone<V>(comps: seq<Component<V>>, m: nat, x: nat)
    requires m <= |comps|
    ensures TotalIn(comps, {}, m, x) == 0
  {
    if m > 0 { TotalInNone(comps, m - 1, x); }
  }

  ghost predicate Distinct(q: seq<nat>) {
    forall i, j :: 0 <= i < j < |q| ==> q[i] != q[j]
  }

  lemma {:induction false} TotalPicked<V>(comps: seq<Component<V>>, q: seq<nat>, x: nat)
    requires Distinct(q) && forall k :: 0 <= k < |q| ==> q[k] < |comps|
    ensures Total(At(comps, q), x) == TotalIn(comps, AsSet(q), |comps|, x)
  {
    if q == [] {
      assert AsSet(q) == {};
      TotalInNone(comps, |comps|, x);
    } else {
      var front, ci := q[..|q|-1], q[|q|-1];
      TotalPicked(comps, front, x);
      assert At(comps, q)[..|q|-1] == At(comps, front);
      assert AsSet(q) == AsSet(front) + {ci};
      TotalInDisjoint(comps, AsSet(front), {ci}, |comps|, x);
      TotalInOne(comps, ci, |comps|, x);
    }
  }

  lemma {:induction false} UnusedDistinct(list: seq<nat>, used: set<nat>)
    ensures Distinct(Unused(list, used))
    ensures forall x :: x in list && x !in used ==> x in Unused(list, used)
  {
    if list != [] {
      if list[0] in used {
        UnusedDistinct(list[1..], used);
      } else {
        UnusedDistinct(list[1..], used + {list[0]});
      }
    }
  }

  /** Entries never fall. */
  ghost predicate Rising(s: seq<nat>) {
    forall i, j :: 0 <= i < j < |s| ==> s[i] <= s[j]
  }

  lemma {:induction false} SharersRise<V>(comps: seq<Component<V>>, id: string, m: nat)
    requires m <= |comps|
    ensures Rising(Sharers(comps, id, m))
  {
    if m > 0 { SharersRise(comps, id, m - 1); }
  }

  lemma {:induction false} UnusedAscends(list: seq<nat>, used: set<nat>)
    requires Rising(list)
    ensures Ascending(Unused(list, used))
  {
    if list != [] {
      var rest := list[1..];
      if list[0] in used {
        UnusedAscends(rest, used);
      } else {
        UnusedAscends(rest, used + {list[0]});
        var r := Unused(rest, used + {list[0]});
        forall k | 0 <= k < |r| ensures list[0] < r[k] { assert r[k] in rest && r[k] != list[0]; }
      }
    }
  }

  /** A queue takes its components in the order of the component list. */
  lemma QueueAscends<V>(comps: seq<Component<V>>, order: seq<string>, k: nat)
    requires k < |order|
    ensures Ascending(Queue(comps, order, k))
  {
    SharersRise(comps, order[k], |comps|);
    UnusedAscends(Sharers(comps, order[k], |comps|), Used(comps, order, k));
  }

  lemma {:induction false} PlainComplement<V>(comps: seq<Component<V>>, used: set<nat>, m: nat, x: nat)
    requires m <= |comps|
    ensures Total(PlainOf(comps, used, m), x) + TotalIn(comps, used, m, x) == Total(comps[..m], x)
  {
    if m > 0 {
      PlainComplement(comps, used, m - 1, x);
      assert comps[..m][..m-1] == comps[..m-1];
      var before := PlainOf(comps, used, m - 1);
      if m - 1 in used {
        assert before + [] == before;
      } else {
        TotalAppend(before, [comps[m-1]], x);
      }
    }
  }

  // ---------------------------------------------------------------------------------
  // Accounting over any list of disjoint queues

  predicate Bounded(q: seq<nat>, n: nat) {
    forall k :: 0 <= k < |q| ==> q[k] < n
  }

  function UnionOf(qs: seq<seq<nat>>): set<nat> {
    if qs == [] then {} else UnionOf(qs[..|qs|-1]) + AsSet(qs[|qs|-1])
  }

  /** Each queue repeats nothing and takes nothing an earlier one took. */
  ghost predicate Apart(qs: seq<seq<nat>>, n: nat) {
    forall k :: 0 <= k < |qs| ==> Bounded(qs[k], n) && Distinct(qs[k]) && UnionOf(qs[..k]) !! AsSet(qs[k])
  }

  /** How often `x` occurs in the queues of one component, or in the longer ones. */
  ghost function Sum<V>(comps: seq<Component<V>>, qs: seq<seq<nat>>, single: bool, x: nat): nat
    requires Apart(qs, |comps|)
  {
    if qs == [] then 0
    else
      var q := qs[|qs|-1];
      assert Bounded(q, |comps|);
      ApartFront(qs, |comps|);
      Sum(comps, qs[..|qs|-1], single, x)
      + if (if single then |q| == 1 else |q| >= 2) then Total(At(comps, q), x) else 0
  }

  lemma ApartFront(qs: seq<seq<nat>>, n: nat)
    requires Apart(qs, n) && qs != []
    ensures Apart(qs[..|qs|-1], n)
  {
    var front := qs[..|qs|-1];
    forall k | 0 <= k < |front|
      ensures Bounded(front[k], n) && Distinct(front[k]) && UnionOf(front[..k]) !! AsSet(front[k])
    {
      assert front[..k] == qs[..k];
    }
  }

  lemma {:induction false} SumIsUsed<V>(comps: seq<Component<V>>, qs: seq<seq<nat>>, x: nat)
    requires Apart(qs, |comps|)
    ensures Sum(comps, qs, true, x) + Sum(comps, qs, false, x) == TotalIn(comps, UnionOf(qs), |comps|, x)
  {
    if qs == [] {
      TotalInNone(comps, |comps|, x);
    } else {
      var front, q := qs[..|qs|-1], qs[|qs|-1];
      ApartFront(qs, |comps|);
      SumIsUsed(comps, front, x);
      assert qs[..|qs|-1] == front;
      TotalInDisjoint(comps, UnionOf(front), AsSet(q), |comps|, x);
      TotalPicked(comps, q, x);
      if q == [] { assert At(comps, q) == []; }
    }
  }

  // ---------------------------------------------------------------------------------
  // The queues of a run

  ghost function QueueList<V>(comps: seq<Component<V>>, order: seq<string>, k: nat): (r: seq<seq<nat>>)
    requires k <= |order|
    ensures |r| == k && forall j :: 0 <= j < k ==> r[j] == Queue(comps, order, j)
  {
    seq(k, j requires 0 <= j < k <= |order| => Queue(comps, order, j))
  }

  /** Sets that grow by one queue at a time end up as the union of the queues. */
  lemma {:induction false} UnionBySteps(qs: seq<seq<nat>>, us: seq<set<nat>>)
    requires |us| == |qs| + 1 && us[0] == {}
    requires forall j :: 0 <= j < |qs| ==> us[j+1] == us[j] + AsSet(qs[j])
    ensures UnionOf(qs) == us[|qs|]
    decreases |qs|
  {
    if qs != [] {
      UnionBySteps(qs[..|qs|-1], us[..|us|-1]);
      assert us[|qs|-1+1] == us[|qs|-1] + AsSet(qs[|qs|-1]);
    }
  }

  lemma {:induction false} QueueListUsed<V>(comps: seq<Component<V>>, order: seq<string>, k: nat)
    requires k <= |order|
    ensures UnionOf(QueueList(comps, order, k)) == Used(comps, order, k)
  {
    var us := seq(k + 1, j requires 0 <= j <= k => Used(comps, order, j));
    UnionBySteps(QueueList(comps, order, k), us);
  }

  lemma QueueFits<V>(comps: seq<Component<V>>, order: seq<string>, k: nat)
    requires k < |order|
    ensures Bounded(Queue(comps, order, k), |comps|) && Distinct(Queue(comps, order, k))
    ensures Used(comps, order, k) !! AsSet(Queue(comps, order, k))
  {
    UnusedDistinct(Sharers(comps, order[k], |comps|), Used(comps, order, k));
  }

  lemma {:induction false} QueueListApart<V>(comps: seq<Component<V>>, order: seq<string>, k: nat)
    requires k <= |order|
    ensures Apart(QueueList(comps, order, k), |comps|)
  {
    var qs := QueueList(comps, order, k);
    forall j | 0 <= j < k
      ensures Bounded(qs[j], |comps|) && Distinct(qs[j]) && UnionOf(qs[..j]) !! AsSet(qs[j])
    {
      assert qs[..j] == QueueList(comps, order, j);
      QueueListUsed(comps, order, j);
      QueueFits(comps, order, j);
    }
  }

  lemma {:induction false} DroppedTotal<V>(comps: seq<Component<V>>, qs: seq<seq<nat>>, x: nat)
    requires Apart(qs, |comps|)
    ensures Total(Dropped(comps, qs), x) == Sum(comps, qs, true, x)
  {
    if qs != [] {
      var q, before := qs[|qs|-1], Dropped(comps, qs[..|qs|-1]);
      ApartFront(qs, |comps|);
      DroppedTotal(comps, qs[..|qs|-1], x);
      if |q| == 1 {
        assert At(comps, q) == [comps[q[0]]];
        TotalAppend(before, [comps[q[0]]], x);
      } else {
        assert before + [] == before;
      }
    }
  }

  lemma TotalQueuesAppend<V>(qs: seq<seq<Component<V>>>, q: seq<Component<V>>, x: nat)
    ensures TotalQueues(qs + [q], x) == TotalQueues(qs, x) + Total(q, x)
    ensures qs + [] == qs
  {
    assert (qs + [q])[..|qs|] == qs;
  }

  ghost function KeepLong<V>(ss: seq<seq<Component<V>>>): seq<seq<Component<V>>> {
    if ss == [] then []
    else KeepLong(ss[..|ss|-1]) + if |ss[|ss|-1]| >= 2 then [ss[|ss|-1]] else []
  }

  lemma {:induction false} KeepLongTotal<V>(comps: seq<Component<V>>, ss: seq<seq<Component<V>>>, qs: seq<seq<nat>>,
                                            x: nat)
    requires Apart(qs, |comps|) && |ss| == |qs|
    requires forall k :: 0 <= k < |qs| ==> Bounded(qs[k], |comps|)
    requires forall k :: 0 <= k < |qs| ==> |ss[k]| == |qs[k]| && Total(ss[k], x) == Total(At(comps, qs[k]), x)
    ensures TotalQueues(KeepLong(ss), x) == Sum(comps, qs, false, x)
  {
    if qs != [] {
      var n := |qs| - 1;
      ApartFront(qs, |comps|);
      KeepLongTotal(comps, ss[..n], qs[..n], x);
      TotalQueuesAppend(KeepLong(ss[..n]), ss[n], x);
    }
  }

  ghost function SortedList<V>(comps: seq<Component<V>>, order: seq<string>, k: nat,
                               cosine: (V, V) -> real): (r: seq<seq<Component<V>>>)
    requires k <= |order|
    ensures |r| == k && forall j :: 0 <= j < k ==> r[j] == Sorted(comps, order, j, cosine)
  {
    seq(k, j requires 0 <= j < k <= |order| => Sorted(comps, order, j, cosine))
  }

  lemma {:induction false} QueuesAreLong<V>(comps: seq<Component<V>>, order: seq<string>, k: nat,
                                            cosine: (V, V) -> real)
    requires k <= |order|
    ensures QueuesOf(comps, order, k, cosine) == KeepLong(SortedList(comps, order, k, cosine))
  {
    if k > 0 {
      QueuesAreLong(comps, order, k - 1, cosine);
      var ss := SortedList(comps, order, k, cosine);
      assert ss[..|ss|-1] == SortedList(comps, order, k - 1, cosine);
    }
  }

  lemma QueuedTotal<V>(comps: seq<Component<V>>, order: seq<string>, k: nat, cosine: (V, V) -> real, x: nat)
    requires k <= |order| && Apart(QueueList(comps, order, k), |comps|)
    ensures TotalQueues(QueuesOf(comps, order, k, cosine), x) == Sum(comps, QueueList(comps, order, k), false, x)
  {
    var ss, qs := SortedList(comps, order, k, cosine), QueueList(comps, order, k);
    forall j | 0 <= j < k
      ensures Bounded(qs[j], |comps|)
      ensures |ss[j]| == |qs[j]| && Total(ss[j], x) == Total(At(comps, qs[j]), x)
    {
      SortedTotal(comps, order, j, cosine, x);
    }
    QueuesAreLong(comps, order, k, cosine);
    KeepLongTotal(comps, ss, qs, x);
  }

  lemma SortedTotal<V>(comps: seq<Component<V>>, order: seq<string>, k: nat, cosine: (V, V) -> real, x: nat)
    requires k < |order|
    ensures Total(Sorted(comps, order, k, cosine), x) == Total(At(comps, Queue(comps, order, k)), x)
  {
    var q, list := Queue(comps, order, k), Sharers(comps, order[k], |comps|);
    if q == [] {
      assert At(comps, q) == [];
    } else {
      TotalSort(At(comps, q), Rank(SharedVec(comps, list, order[k]).value, cosine), x);
    }
  }

  /** Whatever the range order: what is in the plain list, plus what is queued, plus what is
    * lost, is exactly what went in. */
  lemma PointsAccounted<V>(comps: seq<Component<V>>, order: seq<string>, cosine: (V, V) -> real, x: nat)
    ensures Total(PlainOf(comps, Used(comps, order, |order|), |comps|), x)
          + TotalQueues(QueuesOf(comps, order, |order|, cosine), x)
          + Total(Lost(comps, order), x)
         == Total(comps, x)
  {
    var k, qs := |order|, QueueList(comps, order, |order|);
    PlainComplement(comps, Used(comps, order, k), |comps|, x);
    assert comps[..|comps|] == comps;
    QueueListApart(comps, order, k);
    QueueListUsed(comps, order, k);
    SumIsUsed(comps, qs, x);
    QueuedTotal(comps, order, k, cosine, x);
    DroppedTotal(comps, qs, x);
  }

  // ---------------------------------------------------------------------------------
  // When nothing is lost

  /** The components that compete for `id`: none when it has a single listing. */
  ghost function Rivals<V>(comps: seq<Component<V>>, id: string): set<nat> {
    if |Sharers(comps, id, |comps|)| < 2 then {}
    else set ci: nat | ci < |comps| && Lists(comps[ci], id)
  }

  ghost predicate RivalForSome<V>(comps: seq<Component<V>>, ids: set<string>, ci: nat) {
    exists id :: id in ids && ci in Rivals(comps, id)
  }

  ghost function RivalsOf<V>(comps: seq<Component<V>>, ids: set<string>): set<nat> {
    set ci: nat | ci < |comps| && RivalForSome(comps, ids, ci)
  }

  ghost function Elements(s: seq<string>): set<string> {
    set id | id in s
  }

  lemma QueueIsFreshRivals<V>(comps: seq<Component<V>>, order: seq<string>, k: nat)
    requires k < |order|
    ensures AsSet(Queue(comps, order, k)) == Rivals(comps, order[k]) - Used(comps, order, k)
  {
    var list := Sharers(comps, order[k], |comps|);
    UnusedDistinct(list, Used(comps, order, k));
    SharersAre(comps, order[k], |comps|);
  }

  lemma RivalsOfAdd<V>(comps: seq<Component<V>>, ids: set<string>, id: string)
    ensures RivalsOf(comps, ids + {id}) == RivalsOf(comps, ids) + Rivals(comps, id)
  {
  }

  lemma ElementsGrow(order: seq<string>, k: nat)
    requires k < |order|
    ensures Elements(order[..k+1]) == Elements(order[..k]) + {order[k]}
  {
    assert order[..k+1] == order[..k] + [order[k]];
  }

  lemma UsedGrows<V>(comps: seq<Component<V>>, order: seq<string>, k: nat)
    requires k < |order|
    ensures Used(comps, order, k + 1) == Used(comps, order, k) + Rivals(comps, order[k])
  {
    QueueIsFreshRivals(comps, order, k);
  }

  lemma {:induction false} UsedIsRivals<V>(comps: seq<Component<V>>, order: seq<string>, k: nat)
    requires k <= |order|
    ensures Used(comps, order, k) == RivalsOf(comps, Elements(order[..k]))
  {
    if k > 0 {
      var j := k - 1;
      UsedIsRivals(comps, order, j);
      UsedGrows(comps, order, j);
      ElementsGrow(order, j);
      RivalsOfAdd(comps, Elements(order[..j]), order[j]);
    }
  }

  lemma {:induction false} DistinctSize(q: seq<nat>)
    requires Distinct(q)
    ensures |AsSet(q)| == |q|
  {
    if q != [] {
      var front, x := q[..|q|-1], q[|q|-1];
      DistinctSize(front);
      assert AsSet(q) == AsSet(front) + {x} && x !in AsSet(front);
    }
  }

  /** The length of a queue depends only on which ids came earlier. */
  lemma QueueSize<V>(comps: seq<Component<V>>, order: seq<string>, k: nat)
    requires k < |order|
    ensures |Queue(comps, order, k)| == |Rivals(comps, order[k]) - RivalsOf(comps, Elements(order[..k]))|
  {
    QueueFits(comps, order, k);
    DistinctSize(Queue(comps, order, k));
    QueueIsFreshRivals(comps, order, k);
    UsedIsRivals(comps, order, k);
  }

  lemma {:induction false} DroppedEmpty<V>(comps: seq<Component<V>>, qs: seq<seq<nat>>)
    requires forall k :: 0 <= k < |qs| ==> Bounded(qs[k], |comps|)
    ensures Dropped(comps, qs) == [] <==> forall k :: 0 <= k < |qs| ==> |qs[k]| != 1
  {
    if qs != [] {
      var front := qs[..|qs|-1];
      DroppedEmpty(comps, front);
      assert Bounded(qs[|qs|-1], |comps|);
      assert forall k :: 0 <= k < |front| ==> front[k] == qs[k];
    }
  }

  /** For one range order: nothing is lost exactly when no id finds a single rival left. */
  lemma NothingLostIff<V>(comps: seq<Component<V>>, order: seq<string>)
    ensures Lost(comps, order) == [] <==>
      forall k :: 0 <= k < |order| ==> |Rivals(comps, order[k]) - RivalsOf(comps, Elements(order[..k]))| != 1
  {
    var qs := QueueList(comps, order, |order|);
    QueueListApart(comps, order, |order|);
    DroppedEmpty(comps, qs);
    forall k | 0 <= k < |order| ensures |qs[k]| == |Rivals(comps, order[k]) - RivalsOf(comps, Elements(order[..k]))| {
      QueueSize(comps, order, k);
    }
  }

  /** `id`, visited after the ids of `earlier`, would leave one component nowhere to go. */
  ghost predicate Trap<V>(comps: seq<Component<V>>, id: string, earlier: set<string>) {
    id !in earlier && |Rivals(comps, id) - RivalsOf(comps, earlier)| == 1
  }

  ghost function SharedIds<V>(comps: seq<Component<V>>): set<string> {
    set ci, id | 0 <= ci < |comps| && id in Ids(comps[ci].hist) :: id
  }

  lemma {:induction false} Listing(ids: set<string>) returns (s: seq<string>)
    ensures Enumerates(s, ids)
  {
    if ids == {} {
      s := [];
    } else {
      var id :| id in ids;
      s := Listing(ids - {id});
      s := s + [id];
    }
  }

  lemma OutsideIdsIrrelevant<V>(comps: seq<Component<V>>, ids: set<string>)
    ensures RivalsOf(comps, ids) == RivalsOf(comps, ids * SharedIds(comps))
  {
    forall ci: nat, id | ci < |comps| && id in ids && ci in Rivals(comps, id)
      ensures id in SharedIds(comps)
    {
      assert Lists(comps[ci], id);
    }
  }

  /** Another id pulls out rival `d` and leaves `ci`. */
  ghost predicate DrawnAway<V>(comps: seq<Component<V>>, id: string, ci: nat, d: nat) {
    exists e :: e != id && d in Rivals(comps, e) && ci !in Rivals(comps, e)
  }

  /** Component `ci` competes for `id`, and every other rival for it also competes for an id
    * that `ci` does not compete for. */
  ghost predicate Cornered<V>(comps: seq<Component<V>>, id: string, ci: nat) {
    ci in Rivals(comps, id) && forall d :: d in Rivals(comps, id) && d != ci ==> DrawnAway(comps, id, ci, d)
  }

  lemma {:induction false} LoneMember(s: set<nat>, x: nat)
    requires |s| == 1 && x in s
    ensures s == {x}
  {
    assert |s - {x}| == 0;
  }

  lemma {:induction false} TrapCorners<V>(comps: seq<Component<V>>, id: string, earlier: set<string>) returns (ci: nat)
    requires Trap(comps, id, earlier)
    ensures Cornered(comps, id, ci)
  {
    var left := Rivals(comps, id) - RivalsOf(comps, earlier);
    ci :| ci in left;
    LoneMember(left, ci);
    assert !RivalForSome(comps, earlier, ci);
    forall d | d in Rivals(comps, id) && d != ci ensures DrawnAway(comps, id, ci, d) {
      assert d !in left && RivalForSome(comps, earlier, d);
      var e :| e in earlier && d in Rivals(comps, e);
    }
  }

  /** The ids that pull out components and leave `ci`. */
  ghost function Sparing<V>(comps: seq<Component<V>>, id: string, ci: nat): set<string> {
    set e | e in SharedIds(comps) && e != id && ci !in Rivals(comps, e)
  }

  lemma {:induction false} CorneredIsTrapped<V>(comps: seq<Component<V>>, id: string, ci: nat)
    requires Cornered(comps, id, ci)
    ensures Trap(comps, id, Sparing(comps, id, ci))
  {
    var earlier := Sparing(comps, id, ci);
    forall d | d in Rivals(comps, id) && d != ci ensures d in RivalsOf(comps, earlier) {
      assert DrawnAway(comps, id, ci, d);
      var e :| e != id && d in Rivals(comps, e) && ci !in Rivals(comps, e);
      assert Lists(comps[d], e);
      assert e in earlier && RivalForSome(comps, earlier, d);
    }
    assert Rivals(comps, id) - RivalsOf(comps, earlier) == {ci};
  }

  /** Over every order the map range can take: no component is ever lost exactly when none is
    * cornered by its rivals for some id. */
  lemma {:induction false} NeverLostIff<V>(comps: seq<Component<V>>)
    ensures (forall order :: Enumerates(order, SharedIds(comps)) ==> Lost(comps, order) == [])
       <==> (forall id, ci: nat :: !Cornered(comps, id, ci))
  {
    NeverLostIffNoTrap(comps);
    if id, earlier :| Trap(comps, id, earlier) { var ci := TrapCorners(comps, id, earlier); }
    if id, ci: nat :| Cornered(comps, id, ci) { CorneredIsTrapped(comps, id, ci); }
  }

  lemma NeverLostIffNoTrap<V>(comps: seq<Component<V>>)
    ensures (forall order :: Enumerates(order, SharedIds(comps)) ==> Lost(comps, order) == [])
       <==> (forall id, earlier :: !Trap(comps, id, earlier))
  {
    if id, earlier :| Trap(comps, id, earlier) {
      var order := TrapSprung(comps, id, earlier);
      assert Enumerates(order, SharedIds(comps)) && Lost(comps, order) != [];
    } else {
      forall order | Enumerates(order, SharedIds(comps)) ensures Lost(comps, order) == [] {
        forall k | 0 <= k < |order|
          ensures |Rivals(comps, order[k]) - RivalsOf(comps, Elements(order[..k]))| != 1
        {
          assert !Trap(comps, order[k], Elements(order[..k]));
        }
        NothingLostIff(comps, order);
      }
    }
  }

  lemma Spliced(before: seq<string>, id: string, after: seq<string>, all: set<string>, earlier: set<string>)
    requires id in all && id !in earlier
    requires Enumerates(before, earlier * all) && Enumerates(after, all - earlier - {id})
    ensures Enumerates(before + [id] + after, all)
  {
    var order := before + [id] + after;
    forall i, j | 0 <= i < j < |order| ensures order[i] != order[j] {
      if i < |before| { assert order[i] in before; }
      if j > |before| { assert order[j] in after; }
    }
    forall x ensures x in order <==> x in all {
      assert x in order <==> x in before || x == id || x in after;
    }
  }

  lemma TrapSprung<V>(comps: seq<Component<V>>, id: string, earlier: set<string>) returns (order: seq<string>)
    requires Trap(comps, id, earlier)
    ensures Enumerates(order, SharedIds(comps)) && Lost(comps, order) != []
  {
    var all := SharedIds(comps);
    TrapIdShared(comps, id, earlier);
    var before := Listing(earlier * all);
    var after := Listing(all - earlier - {id});
    order := before + [id] + after;
    Spliced(before, id, after, all, earlier);
    assert order[|before|] == id && order[..|before|] == before;
    assert Elements(before) == earlier * all;
    OutsideIdsIrrelevant(comps, earlier);
    NothingLostIff(comps, order);
  }

  lemma TrapIdShared<V>(comps: seq<Component<V>>, id: string, earlier: set<string>)
    requires Trap(comps, id, earlier)
    ensures id in SharedIds(comps)
  {
    var lone :| lone in Rivals(comps, id) - RivalsOf(comps, earlier);
    assert Lists(comps[lone], id);
  }

  // ---------------------------------------------------------------------------------
  // What is put out, in order

  /** The components below `m`, those used left blank. */
  ghost function Unpulled<V>(comps: seq<Component<V>>, used: set<nat>, m: nat): (r: seq<Option<Component<V>>>)
    requires m <= |comps|
    ensures |r| == m && forall ci :: 0 <= ci < m ==> r[ci] == if ci in used then None else Some(comps[ci])
  {
    seq(m, ci requires 0 <= ci < m => if ci in used then None else Some(comps[ci]))
  }

  lemma PlainStep<V>(comps: seq<Component<V>>, used: set<nat>, m: nat)
    requires m < |comps|
    ensures PlainOf(comps, used, m + 1) ==
      if m in used then PlainOf(comps, used, m) else PlainOf(comps, used, m) + [comps[m]]
  {
    assert PlainOf(comps, used, m) + [] == PlainOf(comps, used, m);
  }

  ghost function PlainSteps<V>(comps: seq<Component<V>>, used: set<nat>, m: nat): seq<seq<Component<V>>>
    requires m <= |comps|
  {
    seq(m + 1, j requires 0 <= j <= m => PlainOf(comps, used, j))
  }

  lemma PlainStepAt<V>(comps: seq<Component<V>>, used: set<nat>, m: nat, i: nat)
    requires i < m <= |comps|
    ensures StepAt(Unpulled(comps, used, m), PlainSteps(comps, used, m), i)
  {
    PlainStep(comps, used, i);
  }

  /** The plain list holds the components not used, all of them and in order. */
  lemma {:induction false} PlainPicks<V>(comps: seq<Component<V>>, used: set<nat>, m: nat)
    requires m <= |comps|
    ensures Somes(Unpulled(comps, used, m), PlainOf(comps, used, m))
  {
    forall i: nat | i < m ensures StepAt(Unpulled(comps, used, m), PlainSteps(comps, used, m), i) {
      PlainStepAt(comps, used, m, i);
    }
    SomesBySteps(Unpulled(comps, used, m), PlainSteps(comps, used, m));
  }

  /** The lists of two or more, the others left blank. */
  ghost function LongOnes<V>(ss: seq<seq<Component<V>>>): (r: seq<Option<seq<Component<V>>>>)
    ensures |r| == |ss| && forall j :: 0 <= j < |ss| ==> r[j] == if |ss[j]| >= 2 then Some(ss[j]) else None
  {
    seq(|ss|, j requires 0 <= j < |ss| => if |ss[j]| >= 2 then Some(ss[j]) else None)
  }

  lemma {:induction false} KeepLongIsPresent<V>(ss: seq<seq<Component<V>>>)
    ensures KeepLong(ss) == Present(LongOnes(ss))
  {
    if ss != [] {
      var front, last := ss[..|ss|-1], ss[|ss|-1];
      var o: Option<seq<Component<V>>> := if |last| >= 2 then Some(last) else None;
      KeepLongIsPresent(front);
      assert LongOnes(ss) == LongOnes(front) + [o];
      PresentMore(LongOnes(front), o);
      assert KeepLong(front) + [] == KeepLong(front);
    }
  }

  /** There is one queue, sorted, for every id that still finds two components, in visiting
    * order. */
  lemma {:induction false} QueuesPick<V>(comps: seq<Component<V>>, order: seq<string>, k: nat, cosine: (V, V) -> real)
    requires k <= |order|
    ensures Somes(LongOnes(SortedList(comps, order, k, cosine)), QueuesOf(comps, order, k, cosine))
    ensures |SortedList(comps, order, k, cosine)| == k
    ensures forall j :: 0 <= j < k ==> SortedList(comps, order, k, cosine)[j] == Sorted(comps, order, j, cosine)
  {
    var ss := SortedList(comps, order, k, cosine);
    QueuesAreLong(comps, order, k, cosine);
    KeepLongIsPresent(ss);
    PresentIs(LongOnes(ss));
  }

  // ---------------------------------------------------------------------------------
  // A component that competes with itself

  lemma ListedTwice<V>(c: Component<V>, h: Hist<V>)
    requires c.hist == [h, h]
    ensures Sharers([c], h.id, 1) == [0, 0] && Unused([0, 0], {}) == [0]
  {
    var ids := [h.id, h.id];
    assert Ids(c.hist) == ids;
    assert Copies(ids, h.id, 0) == [0, 0] by {
      assert ids[..1] == [h.id];
      assert [h.id][..0] == [];
    }
    assert [0, 0][1..] == [0] && [0][1..] == [];
    assert Unused([0], {} + {0}) == [];
  }

  /** A lone component that lists one historical point twice is its own only rival: it is
    * pulled out of the plain list and its queue is dropped. */
  lemma OwnRivalIsLost<V>(c: Component<V>, h: Hist<V>, cosine: (V, V) -> real)
    requires c.hist == [h, h]
    ensures var comps, order := [c], [h.id];
      Lost(comps, order) == comps && PlainOf(comps, Used(comps, order, 1), 1) == [] &&
        QueuesOf(comps, order, 1, cosine) == []
  {
    var comps, order := [c], [h.id];
    ListedTwice(c, h);
    assert Used(comps, order, 0) == {} && Queue(comps, order, 0) == [0];
    assert QueueList(comps, order, 1) == [[0]];
    assert Dropped(comps, [[0]]) == [c];
  }
}
