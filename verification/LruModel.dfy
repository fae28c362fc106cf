/** What an LRU cache is: a list of entries, most recently used first, cut to a capacity. */
module LruModel {
  import opened Wrappers

  datatype Entry<K, V> = Entry(key: K, val: V)

  /** The place of `k` among the first `n` entries, or `n` when it is not there. */
  function IndexWithin<K(==), V>(s: seq<Entry<K, V>>, k: K, n: nat): (i: nat)
    requires n <= |s|
    ensures i <= n && (i < n ==> s[i].key == k)
    ensures forall j :: 0 <= j < i ==> s[j].key != k
    decreases n
  {
    if n == 0 then 0
    else
      var i := IndexWithin(s, k, n - 1);
      if i < n - 1 || s[n-1].key == k then i else n
  }

  /** The place of `k` in the list, or its length when absent. */
  function IndexOf<K(==), V>(s: seq<Entry<K, V>>, k: K): (i: nat)
    ensures i <= |s| && (i < |s| ==> s[i].key == k)
    ensures forall j :: 0 <= j < i ==> s[j].key != k
  {
    IndexWithin(s, k, |s|)
  }

  function Lookup<K(==), V>(cap: int, s: seq<Entry<K, V>>, k: K): Option<V> {
    var i := IndexOf(s, k);
    if cap > 0 && i < |s| then Some(s[i].val) else None
  }

  /** A hit moves its entry to the front; a miss changes nothing. */
  function AfterGet<K(==), V>(cap: int, s: seq<Entry<K, V>>, k: K): seq<Entry<K, V>> {
    var i := IndexOf(s, k);
    if cap > 0 && i < |s| then [s[i]] + (s[..i] + s[i+1..]) else s
  }

  /** A known key is updated and moved to the front; a new one is pushed in front and the
    * last entry goes when the list is over capacity. */
  function AfterSet<K(==), V>(cap: int, s: seq<Entry<K, V>>, k: K, v: V): seq<Entry<K, V>> {
    var i := IndexOf(s, k);
    if cap <= 0 then s
    else if i < |s| then [Entry(k, v)] + (s[..i] + s[i+1..])
    else if |s| + 1 > cap then ([Entry(k, v)] + s)[..|s|]
    else [Entry(k, v)] + s
  }

  datatype Op<K, V> = Get(key: K) | Set(key: K, val: V)

  function AfterOp<K(==), V>(cap: int, s: seq<Entry<K, V>>, op: Op<K, V>): seq<Entry<K, V>> {
    match op
    case Get(k) => AfterGet(cap, s, k)
    case Set(k, v) => AfterSet(cap, s, k, v)
  }

  /** The contents after a trace, from an empty cache. */
  function Run<K(==), V>(cap: int, ops: seq<Op<K, V>>): seq<Entry<K, V>> {
    if |ops| == 0 then [] else AfterOp(cap, Run(cap, ops[..|ops|-1]), ops[|ops|-1])
  }

  // ---------------------------------------------------------------------------------
  // Keys and removal

  ghost predicate DistinctKeys<K, V>(s: seq<Entry<K, V>>) {
    forall i, j :: 0 <= i < j < |s| ==> s[i].key != s[j].key
  }

  ghost predicate HasKey<K, V>(s: seq<Entry<K, V>>, k: K) {
    exists i :: 0 <= i < |s| && s[i].key == k
  }

  ghost function Without<K, V>(s: seq<Entry<K, V>>, k: K): seq<Entry<K, V>> {
    if |s| == 0 then []
    else Without(s[..|s|-1], k) + if s[|s|-1].key == k then [] else [s[|s|-1]]
  }

  lemma {:induction false} WithoutAbsent<K, V>(s: seq<Entry<K, V>>, k: K)
    requires forall i :: 0 <= i < |s| ==> s[i].key != k
    ensures Without(s, k) == s
  {
    if |s| != 0 { WithoutAbsent(s[..|s|-1], k); }
  }

  lemma {:induction false} WithoutAt<K, V>(s: seq<Entry<K, V>>, i: nat)
    requires DistinctKeys(s) && i < |s|
    ensures Without(s, s[i].key) == s[..i] + s[i+1..]
  {
    var last := |s| - 1;
    if i == last {
      WithoutAbsent(s[..last], s[i].key);
    } else {
      WithoutAt(s[..last], i);
      assert s[..last][..i] == s[..i] && s[..last][i+1..] + [s[last]] == s[i+1..];
    }
  }

  function Cut<T>(cap: int, t: seq<T>): seq<T>
    requires cap >= 0
  {
    if |t| > cap then t[..cap] else t
  }

  /** A hit puts its entry in front of the rest. */
  lemma {:induction false} GetIsMove<K, V>(cap: int, s: seq<Entry<K, V>>, k: K)
    requires DistinctKeys(s) && cap > 0
    ensures IndexOf(s, k) < |s| ==> AfterGet(cap, s, k) == [s[IndexOf(s, k)]] + Without(s, k)
    ensures IndexOf(s, k) == |s| ==> AfterGet(cap, s, k) == s && Without(s, k) == s
  {
    if IndexOf(s, k) < |s| { WithoutAt(s, IndexOf(s, k)); } else { WithoutAbsent(s, k); }
  }

  /** A set puts the new entry in front of the rest and cuts to capacity. */
  lemma {:induction false} SetIsMove<K, V>(cap: int, s: seq<Entry<K, V>>, k: K, v: V)
    requires DistinctKeys(s) && cap > 0 && |s| <= cap
    ensures AfterSet(cap, s, k, v) == Cut(cap, [Entry(k, v)] + Without(s, k))
    ensures |Without(s, k)| == if IndexOf(s, k) < |s| then |s| - 1 else |s|
  {
    if IndexOf(s, k) < |s| { WithoutAt(s, IndexOf(s, k)); } else { WithoutAbsent(s, k); }
  }

  ghost predicate Fits<K, V>(cap: int, s: seq<Entry<K, V>>) {
    DistinctKeys(s) && |s| <= if cap > 0 then cap else 0
  }

  lemma MovedDistinct<K, V>(s: seq<Entry<K, V>>, i: nat, e: Entry<K, V>)
    requires DistinctKeys(s) && i < |s| && e.key == s[i].key
    ensures DistinctKeys([e] + (s[..i] + s[i+1..]))
  {
    var rest := s[..i] + s[i+1..];
    forall x | 0 <= x < |rest| ensures rest[x] == s[if x < i then x else x + 1] {}
    forall x, y | 0 <= x < y < |[e] + rest| ensures ([e] + rest)[x].key != ([e] + rest)[y].key {
      assert ([e] + rest)[y] == rest[y-1];
      if x > 0 { assert ([e] + rest)[x] == rest[x-1]; }
    }
  }

  lemma PushedDistinct<K, V>(s: seq<Entry<K, V>>, e: Entry<K, V>)
    requires DistinctKeys(s) && forall i :: 0 <= i < |s| ==> s[i].key != e.key
    ensures DistinctKeys([e] + s) && DistinctKeys(([e] + s)[..|s|])
  {
  }

  lemma OpFits<K, V>(cap: int, s: seq<Entry<K, V>>, op: Op<K, V>)
    requires Fits(cap, s)
    ensures Fits(cap, AfterOp(cap, s, op))
  {
    var i := IndexOf(s, op.key);
    if cap > 0 {
      match op
      case Get(k) => if i < |s| { MovedDistinct(s, i, s[i]); }
      case Set(k, v) => if i < |s| { MovedDistinct(s, i, Entry(k, v)); } else { PushedDistinct(s, Entry(k, v)); }
    }
  }

  /** No key occurs twice and the capacity is respected, after every trace. */
  lemma {:induction false} RunFits<K, V>(cap: int, ops: seq<Op<K, V>>)
    ensures Fits(cap, Run(cap, ops))
  {
    if |ops| != 0 {
      RunFits(cap, ops[..|ops|-1]);
      OpFits(cap, Run(cap, ops[..|ops|-1]), ops[|ops|-1]);
    }
  }

  // ---------------------------------------------------------------------------------
  // Values

  function LastSet<K(==), V>(ops: seq<Op<K, V>>, k: K): Option<V> {
    if |ops| == 0 then None
    else
      var op := ops[|ops|-1];
      if op.Set? && op.key == k then Some(op.val) else LastSet(ops[..|ops|-1], k)
  }

  lemma {:induction false} EntriesAreLastSet<K, V>(cap: int, ops: seq<Op<K, V>>)
    ensures forall i :: 0 <= i < |Run(cap, ops)| ==>
      LastSet(ops, Run(cap, ops)[i].key) == Some(Run(cap, ops)[i].val)
  {
    if |ops| != 0 {
      var front, op := ops[..|ops|-1], ops[|ops|-1];
      EntriesAreLastSet(cap, front);
      RunFits(cap, front);
      var s, t := Run(cap, front), Run(cap, ops);
      forall i | 0 <= i < |t| ensures LastSet(ops, t[i].key) == Some(t[i].val) {
        assert (op.Set? && t[i] == Entry(op.key, op.val)) || t[i] in s;
        if t[i] in s && op.Set? && t[i] != Entry(op.key, op.val) {
          var j :| 0 <= j < |s| && s[j] == t[i];
          assert t[i].key != op.key;
        }
      }
    }
  }

  /** A hit returns the value most recently set for the key. */
  lemma HitIsLastSet<K, V>(cap: int, ops: seq<Op<K, V>>, k: K)
    ensures Lookup(cap, Run(cap, ops), k).Some? ==> LastSet(ops, k) == Lookup(cap, Run(cap, ops), k)
  {
    EntriesAreLastSet(cap, ops);
  }

  // ---------------------------------------------------------------------------------
  // Inclusion: a larger cache holds everything a smaller one does

  ghost predicate Subsequence<T>(a: seq<T>, b: seq<T>)
    decreases |b|
  {
    |a| == 0 || (|b| > 0 && (
      (a[|a|-1] == b[|b|-1] && Subsequence(a[..|a|-1], b[..|b|-1])) || Subsequence(a, b[..|b|-1])))
  }

  lemma {:induction false} SubsequenceSelf<T>(a: seq<T>)
    ensures Subsequence(a, a)
  {
    if |a| != 0 { SubsequenceSelf(a[..|a|-1]); }
  }

  lemma {:induction false} SubsequenceIn<T>(a: seq<T>, b: seq<T>, x: T)
    requires Subsequence(a, b) && x in a
    ensures x in b
    decreases |b|
  {
    if a[|a|-1] == b[|b|-1] && Subsequence(a[..|a|-1], b[..|b|-1]) {
      if x != a[|a|-1] { SubsequenceIn(a[..|a|-1], b[..|b|-1], x); }
    } else {
      SubsequenceIn(a, b[..|b|-1], x);
    }
  }

  lemma {:induction false} SubsequenceCut<T>(a: seq<T>, b: seq<T>)
    requires Subsequence(a, b) && |a| > 0
    ensures |b| > 0 && Subsequence(a[..|a|-1], b[..|b|-1]) && Subsequence(a[..|a|-1], b)
    decreases |b|
  {
    if !(a[|a|-1] == b[|b|-1] && Subsequence(a[..|a|-1], b[..|b|-1])) {
      SubsequenceCut(a, b[..|b|-1]);
    }
  }

  lemma {:induction false} SubsequenceCons<T>(x: T, a: seq<T>, b: seq<T>)
    requires Subsequence(a, b)
    ensures Subsequence([x] + a, [x] + b) && Subsequence(a, [x] + b)
    decreases |b|
  {
    if |b| == 0 {
      assert [x] + a == [x] && [x] + b == [x];
      SubsequenceSelf([x]);
    } else {
      assert ([x] + b)[..|b|] == [x] + b[..|b|-1];
      if |a| == 0 {
        SubsequenceCons(x, a, b[..|b|-1]);
        assert [x] + a == [x];
      } else if a[|a|-1] == b[|b|-1] && Subsequence(a[..|a|-1], b[..|b|-1]) {
        SubsequenceCons(x, a[..|a|-1], b[..|b|-1]);
        assert ([x] + a)[..|a|] == [x] + a[..|a|-1];
      } else {
        SubsequenceCons(x, a, b[..|b|-1]);
      }
    }
  }

  lemma {:induction false} SubsequenceWithout<K, V>(a: seq<Entry<K, V>>, b: seq<Entry<K, V>>, k: K)
    requires Subsequence(a, b)
    ensures Subsequence(Without(a, k), Without(b, k))
    decreases |b|
  {
    if |a| != 0 {
      var bf, bw := b[..|b|-1], Without(b[..|b|-1], k);
      if a[|a|-1] == b[|b|-1] && Subsequence(a[..|a|-1], bf) {
        var aw := Without(a[..|a|-1], k);
        SubsequenceWithout(a[..|a|-1], bf, k);
        if b[|b|-1].key == k {
          assert aw + [] == aw && bw + [] == bw;
        } else {
          assert (aw + [a[|a|-1]])[..|aw|] == aw && (bw + [b[|b|-1]])[..|bw|] == bw;
        }
      } else {
        SubsequenceWithout(a, bf, k);
        if b[|b|-1].key == k {
          assert bw + [] == bw;
        } else {
          assert (bw + [b[|b|-1]])[..|bw|] == bw;
        }
      }
    }
  }

  /** The contents `a` of a small cache sit, in order, inside those of a larger one; until
    * the small one is full they are the same. */
  ghost predicate Included<K, V>(a: seq<Entry<K, V>>, b: seq<Entry<K, V>>, cap: int, larger: int) {
    && DistinctKeys(a) && DistinctKeys(b) && |a| <= cap && |b| <= larger
    && Subsequence(a, b)
    && (|a| < cap ==> a == b)
  }

  lemma GetIncluded<K, V>(a: seq<Entry<K, V>>, b: seq<Entry<K, V>>, cap: int, larger: int, k: K)
    requires 0 < cap <= larger && Included(a, b, cap, larger)
    ensures Subsequence(AfterGet(cap, a, k), AfterGet(larger, b, k))
    ensures |AfterGet(cap, a, k)| < cap ==> AfterGet(cap, a, k) == AfterGet(larger, b, k)
  {
    if |a| < cap {
      SubsequenceSelf(AfterGet(cap, a, k));
    } else {
      GetSubsequence(a, b, cap, larger, k);
    }
  }

  lemma GetSubsequence<K, V>(a: seq<Entry<K, V>>, b: seq<Entry<K, V>>, cap: int, larger: int, k: K)
    requires 0 < cap <= larger && DistinctKeys(a) && DistinctKeys(b) && Subsequence(a, b)
    ensures Subsequence(AfterGet(cap, a, k), AfterGet(larger, b, k))
  {
    GetIsMove(cap, a, k);
    GetIsMove(larger, b, k);
    KeyIncluded(a, b, k);
    SubsequenceWithout(a, b, k);
    if IndexOf(b, k) < |b| {
      SubsequenceCons(b[IndexOf(b, k)], Without(a, k), Without(b, k));
    }
  }

  lemma CutIncluded<T>(x: seq<T>, y: seq<T>, cap: int, larger: int)
    requires 0 < cap <= larger && |x| <= cap + 1 && |y| <= larger + 1 && Subsequence(x, y)
    requires |x| < cap ==> x == y
    requires |x| <= cap && |y| > larger ==> x == y
    ensures Subsequence(Cut(cap, x), Cut(larger, y))
    ensures |Cut(cap, x)| < cap ==> Cut(cap, x) == Cut(larger, y)
  {
    if |x| > 0 { SubsequenceCut(x, y); }
  }

  lemma SetIncluded<K, V>(a: seq<Entry<K, V>>, b: seq<Entry<K, V>>, cap: int, larger: int, k: K, v: V)
    requires 0 < cap <= larger && Included(a, b, cap, larger)
    ensures Subsequence(AfterSet(cap, a, k, v), AfterSet(larger, b, k, v))
    ensures |AfterSet(cap, a, k, v)| < cap ==> AfterSet(cap, a, k, v) == AfterSet(larger, b, k, v)
  {
    SetIsMove(cap, a, k, v);
    SetIsMove(larger, b, k, v);
    SubsequenceWithout(a, b, k);
    SubsequenceCons(Entry(k, v), Without(a, k), Without(b, k));
    KeyIncluded(a, b, k);
    CutIncluded([Entry(k, v)] + Without(a, k), [Entry(k, v)] + Without(b, k), cap, larger);
  }

  lemma KeyIncluded<K, V>(a: seq<Entry<K, V>>, b: seq<Entry<K, V>>, k: K)
    requires DistinctKeys(b) && Subsequence(a, b)
    ensures var i, j := IndexOf(a, k), IndexOf(b, k); i < |a| ==> j < |b| && b[j] == a[i]
  {
    var i := IndexOf(a, k);
    if i < |a| { SubsequenceIn(a, b, a[i]); }
  }

  /** On one trace, what a small cache holds is a subsequence of what a larger one holds. */
  lemma {:induction false} RunIncluded<K, V>(cap: int, larger: int, ops: seq<Op<K, V>>)
    requires 0 < cap <= larger
    ensures Included(Run(cap, ops), Run(larger, ops), cap, larger)
  {
    RunFits(cap, ops);
    RunFits(larger, ops);
    if |ops| != 0 {
      var a, b, op := Run(cap, ops[..|ops|-1]), Run(larger, ops[..|ops|-1]), ops[|ops|-1];
      RunIncluded(cap, larger, ops[..|ops|-1]);
      match op
      case Get(k) => GetIncluded(a, b, cap, larger, k);
      case Set(k, v) => SetIncluded(a, b, cap, larger, k, v);
    }
  }

  /** On one trace, raising the capacity never turns a hit into a miss or changes its value. */
  lemma LargerKeepsHits<K, V>(cap: int, larger: int, ops: seq<Op<K, V>>, k: K)
    requires cap <= larger
    ensures Subsequence(Run(cap, ops), Run(larger, ops))
    ensures Lookup(cap, Run(cap, ops), k).Some? ==> Lookup(larger, Run(larger, ops), k) == Lookup(cap, Run(cap, ops), k)
  {
    if cap > 0 {
      RunIncluded(cap, larger, ops);
      KeyIncluded(Run(cap, ops), Run(larger, ops), k);
    } else {
      RunFits(cap, ops);
    }
  }

  // ---------------------------------------------------------------------------------
  // Retention: a key survives until enough other keys have been used

  ghost function KeysUsed<K, V>(ops: seq<Op<K, V>>): set<K> {
    set i | 0 <= i < |ops| :: ops[i].key
  }

  ghost function KeysBefore<K, V>(s: seq<Entry<K, V>>, n: nat): set<K>
    requires n <= |s|
  {
    set i | 0 <= i < n :: s[i].key
  }

  lemma {:induction false} KeysBeforeSize<K, V>(s: seq<Entry<K, V>>, n: nat)
    requires DistinctKeys(s) && n <= |s|
    ensures |KeysBefore(s, n)| == n
  {
    if n > 0 {
      KeysBeforeSize(s, n - 1);
      assert KeysBefore(s, n) == KeysBefore(s, n - 1) + {s[n-1].key};
      assert s[n-1].key !in KeysBefore(s, n - 1);
    }
  }

  /** `k` is cached, and everything ahead of it was used since. */
  ghost predicate Held<K, V>(s: seq<Entry<K, V>>, k: K, since: set<K>) {
    var i := IndexOf(s, k);
    i < |s| && KeysBefore(s, i) <= since - {k}
  }

  /** Moving entry `j` to the front pushes back only what was ahead of it. */
  lemma HeldMove<K, V>(s: seq<Entry<K, V>>, k: K, since: set<K>, j: nat, e: Entry<K, V>)
    requires DistinctKeys(s) && Held(s, k, since) && j < |s| && e.key == s[j].key
    ensures Held([e] + (s[..j] + s[j+1..]), k, since + {e.key})
  {
    var i, t := IndexOf(s, k), [e] + (s[..j] + s[j+1..]);
    if j != i {
      var at := if j < i then i else i + 1;
      assert t[at] == s[i];
      forall x | 0 <= x < at ensures t[x].key in since + {e.key} - {k} {
        if x > 0 {
          var y := if x - 1 < j then x - 1 else x;
          assert t[x] == s[y];
          assert s[y].key in KeysBefore(s, i);
        }
      }
      assert IndexOf(t, k) == at;
    } else {
      assert t[0].key == k;
      assert IndexOf(t, k) == 0;
    }
  }

  /** A held key has fewer entries ahead of it than keys used since, counting one more. */
  lemma AheadOf<K, V>(s: seq<Entry<K, V>>, k: K, since: set<K>, used: K)
    requires DistinctKeys(s) && Held(s, k, since) && IndexOf(s, used) == |s|
    ensures IndexOf(s, k) + 1 <= |since + {used} - {k}|
  {
    var i := IndexOf(s, k);
    KeysBeforeSize(s, i);
    assert used !in KeysBefore(s, i);
    SubsetSize(KeysBefore(s, i) + {used}, since + {used} - {k});
  }

  lemma HeldPush<K, V>(cap: int, s: seq<Entry<K, V>>, k: K, since: set<K>, e: Entry<K, V>)
    requires DistinctKeys(s) && Held(s, k, since) && IndexOf(s, e.key) == |s| && |s| <= cap
    requires |since + {e.key} - {k}| < cap
    ensures Held(Cut(cap, [e] + s), k, since + {e.key})
  {
    var i, t := IndexOf(s, k), Cut(cap, [e] + s);
    AheadOf(s, k, since, e.key);
    assert t[i+1] == s[i];
    forall x | 0 <= x < i + 1 ensures t[x].key in since + {e.key} - {k} {
      if x > 0 { assert t[x] == s[x-1] && s[x-1].key in KeysBefore(s, i); }
    }
    assert IndexOf(t, k) == i + 1;
  }

  lemma HeldOp<K, V>(cap: int, s: seq<Entry<K, V>>, k: K, since: set<K>, op: Op<K, V>)
    requires Fits(cap, s) && cap > 0 && Held(s, k, since)
    requires |since + {op.key} - {k}| < cap
    ensures Held(AfterOp(cap, s, op), k, since + {op.key})
  {
    var j := IndexOf(s, op.key);
    match op
    case Get(used) => if j < |s| { HeldMove(s, k, since, j, s[j]); }
    case Set(used, v) =>
      if j < |s| { HeldMove(s, k, since, j, Entry(used, v)); } else { HeldPush(cap, s, k, since, Entry(used, v)); }
  }

  /** An operation that puts its key in front: a set, or a get that hits. */
  ghost predicate Touches<K, V>(cap: int, s: seq<Entry<K, V>>, op: Op<K, V>) {
    cap > 0 && (op.Set? || IndexOf(s, op.key) < |s|)
  }

  lemma JustTouched<K, V>(cap: int, s: seq<Entry<K, V>>, op: Op<K, V>)
    requires Fits(cap, s) && Touches(cap, s, op)
    ensures Held(AfterOp(cap, s, op), op.key, {})
  {
    assert AfterOp(cap, s, op)[0].key == op.key;
  }

  lemma SubsetSize<K>(a: set<K>, b: set<K>)
    requires a <= b
    ensures |a| <= |b|
  {
    assert b == a + (b - a);
  }

  lemma HeldAfter<K, V>(cap: int, ops: seq<Op<K, V>>, k: K, since: set<K>, op: Op<K, V>)
    requires cap > 0 && Held(Run(cap, ops), k, since) && |since + {op.key} - {k}| < cap
    ensures Held(Run(cap, ops + [op]), k, since + {op.key})
  {
    RunFits(cap, ops);
    RunAppend(cap, ops, op);
    HeldOp(cap, Run(cap, ops), k, since, op);
  }

  /** After a key is set, or found, it stays cached as long as fewer than `cap` other keys are used. */
  lemma {:induction false} RecentKeysSurvive<K, V>(cap: int, before: seq<Op<K, V>>, op: Op<K, V>, after: seq<Op<K, V>>)
    requires Touches(cap, Run(cap, before), op) && |KeysUsed(after) - {op.key}| < cap
    ensures Held(Run(cap, before + [op] + after), op.key, KeysUsed(after))
  {
    if |after| == 0 {
      TouchedIsHeld(cap, before, op);
      assert before + [op] + after == before + [op];
    } else {
      var front, last, ops := after[..|after|-1], after[|after|-1], before + [op] + after[..|after|-1];
      assert before + [op] + after == ops + [last];
      KeysUsedAppend(after);
      SubsetSize(KeysUsed(front) - {op.key}, KeysUsed(after) - {op.key});
      RecentKeysSurvive(cap, before, op, front);
      HeldAfter(cap, ops, op.key, KeysUsed(front), last);
    }
  }

  lemma TouchedIsHeld<K, V>(cap: int, before: seq<Op<K, V>>, op: Op<K, V>)
    requires Touches(cap, Run(cap, before), op)
    ensures Held(Run(cap, before + [op]), op.key, {})
  {
    RunFits(cap, before);
    RunAppend(cap, before, op);
    JustTouched(cap, Run(cap, before), op);
  }

  lemma RunAppend<K, V>(cap: int, ops: seq<Op<K, V>>, op: Op<K, V>)
    ensures Run(cap, ops + [op]) == AfterOp(cap, Run(cap, ops), op)
  {
    assert (ops + [op])[..|ops|] == ops;
  }

  lemma KeysUsedAppend<K, V>(ops: seq<Op<K, V>>)
    requires |ops| > 0
    ensures KeysUsed(ops) == KeysUsed(ops[..|ops|-1]) + {ops[|ops|-1].key}
  {
    var front := ops[..|ops|-1];
    forall i | 0 <= i < |front| ensures ops[i].key in KeysUsed(front) { assert front[i] == ops[i]; }
  }

  /** Such a key is still a hit, with the value last set for it. */
  lemma RecentKeysHit<K, V>(cap: int, before: seq<Op<K, V>>, op: Op<K, V>, after: seq<Op<K, V>>)
    requires Touches(cap, Run(cap, before), op) && |KeysUsed(after) - {op.key}| < cap
    ensures var ops := before + [op] + after;
      Lookup(cap, Run(cap, ops), op.key).Some? && Lookup(cap, Run(cap, ops), op.key) == LastSet(ops, op.key)
  {
    RecentKeysSurvive(cap, before, op, after);
    HitIsLastSet(cap, before + [op] + after, op.key);
  }

  ghost function KeysSet<K, V>(ops: seq<Op<K, V>>): set<K> {
    set i | 0 <= i < |ops| && ops[i].Set? :: ops[i].key
  }

  lemma KeysSetAppend<K, V>(ops: seq<Op<K, V>>)
    requires |ops| > 0
    ensures var last := ops[|ops|-1];
      KeysSet(ops) == KeysSet(ops[..|ops|-1]) + if last.Set? then {last.key} else {}
  {
    var front := ops[..|ops|-1];
    forall i | 0 <= i < |front| && ops[i].Set? ensures ops[i].key in KeysSet(front) { assert front[i] == ops[i]; }
  }

  /** If `k` is cached, every key of `ks` is ahead of it. */
  ghost predicate Behind<K, V>(s: seq<Entry<K, V>>, k: K, ks: set<K>) {
    var i := IndexOf(s, k);
    i < |s| ==> ks <= KeysBefore(s, i)
  }

  lemma BehindMove<K, V>(s: seq<Entry<K, V>>, k: K, ks: set<K>, j: nat, e: Entry<K, V>)
    requires DistinctKeys(s) && Behind(s, k, ks) && j < |s| && e.key == s[j].key != k
    ensures Behind([e] + (s[..j] + s[j+1..]), k, ks + {e.key})
  {
    var i, t := IndexOf(s, k), [e] + (s[..j] + s[j+1..]);
    if IndexOf(t, k) < |t| {
      var at := IndexOf(t, k);
      assert t[at] == s[if at - 1 < j then at - 1 else at];
      assert at == if j < i then i else i + 1;
      forall x | x in ks + {e.key} ensures x in KeysBefore(t, at) {
        if x == e.key {
          assert t[0].key == x;
        } else {
          assert x in KeysBefore(s, i);
          var y :| 0 <= y < i && s[y].key == x;
          assert t[if y < j then y + 1 else y].key == x;
        }
      }
    }
  }

  lemma BehindPush<K, V>(cap: int, s: seq<Entry<K, V>>, k: K, ks: set<K>, e: Entry<K, V>)
    requires cap > 0 && DistinctKeys(s) && Behind(s, k, ks) && e.key != k && |s| <= cap
    ensures Behind(Cut(cap, [e] + s), k, ks + {e.key})
  {
    var i, t := IndexOf(s, k), Cut(cap, [e] + s);
    var at := IndexOf(t, k);
    if at < |t| {
      assert t[at] == s[at-1];
      assert i == at - 1;
      forall x | x in ks + {e.key} ensures x in KeysBefore(t, at) {
        if x == e.key {
          assert t[0].key == x;
        } else {
          assert x in KeysBefore(s, i);
          var y :| 0 <= y < i && s[y].key == x;
          assert t[y+1].key == x;
        }
      }
    }
  }

  lemma BehindOp<K, V>(cap: int, s: seq<Entry<K, V>>, k: K, ks: set<K>, op: Op<K, V>)
    requires Fits(cap, s) && cap > 0 && Behind(s, k, ks) && op.key != k
    ensures Behind(AfterOp(cap, s, op), k, ks + if op.Set? then {op.key} else {})
  {
    var j := IndexOf(s, op.key);
    match op
    case Get(used) => if j < |s| { BehindMove(s, k, ks, j, s[j]); }
    case Set(used, v) =>
      if j < |s| { BehindMove(s, k, ks, j, Entry(used, v)); } else { BehindPush(cap, s, k, ks, Entry(used, v)); }
  }

  lemma {:induction false} SetKeysAreAhead<K, V>(cap: int, before: seq<Op<K, V>>, k: K, after: seq<Op<K, V>>)
    requires cap > 0 && k !in KeysUsed(after)
    ensures Behind(Run(cap, before + after), k, KeysSet(after))
  {
    if |after| == 0 {
      assert before + after == before;
    } else {
      var front, last := after[..|after|-1], after[|after|-1];
      KeysUsedAppend(after);
      KeysSetAppend(after);
      SetKeysAreAhead(cap, before, k, front);
      RunFits(cap, before + front);
      RunAppend(cap, before + front, last);
      assert before + after == before + front + [last];
      BehindOp(cap, Run(cap, before + front), k, KeysSet(front), last);
    }
  }

  /** A key is gone once `cap` other keys have been set without its being used. */
  lemma UnusedKeyMisses<K, V>(cap: int, before: seq<Op<K, V>>, k: K, after: seq<Op<K, V>>)
    requires k !in KeysUsed(after) && |KeysSet(after)| >= cap
    ensures Lookup(cap, Run(cap, before + after), k) == None
  {
    if cap > 0 {
      var s := Run(cap, before + after);
      SetKeysAreAhead(cap, before, k, after);
      RunFits(cap, before + after);
      if IndexOf(s, k) < |s| {
        KeysBeforeSize(s, IndexOf(s, k));
        SubsetSize(KeysSet(after), KeysBefore(s, IndexOf(s, k)));
      }
    }
  }

  lemma {:induction false} FewKeysUsed<K, V>(ops: seq<Op<K, V>>)
    ensures |KeysUsed(ops)| <= |ops|
  {
    if |ops| != 0 {
      FewKeysUsed(ops[..|ops|-1]);
      KeysUsedAppend(ops);
    }
  }

  lemma {:induction false} LastSetBefore<K, V>(before: seq<Op<K, V>>, k: K, v: V, after: seq<Op<K, V>>)
    requires forall i :: 0 <= i < |after| ==> after[i].key != k
    ensures LastSet(before + [Set(k, v)] + after, k) == Some(v)
  {
    if |after| == 0 {
      assert before + [Set(k, v)] + after == before + [Set(k, v)];
    } else {
      LastSetBefore(before, k, v, after[..|after|-1]);
      var ops := before + [Set(k, v)] + after;
      assert ops[..|ops|-1] == before + [Set(k, v)] + after[..|after|-1];
    }
  }

  lemma LastSetHits<K, V>(cap: int, before: seq<Op<K, V>>, k: K, v: V, after: seq<Op<K, V>>)
    requires |after| < cap && forall i :: 0 <= i < |after| ==> after[i].key != k
    ensures Lookup(cap, Run(cap, before + [Set(k, v)] + after), k) == Some(v)
  {
    FewKeysUsed(after);
    SubsetSize(KeysUsed(after) - {k}, KeysUsed(after));
    RecentKeysHit(cap, before, Set(k, v), after);
    LastSetBefore(before, k, v, after);
  }

  /** A key hits after a trace that sets it last at `i` and has fewer than `cap` operations after that. */
  lemma SetInTraceHits<K, V>(cap: int, start: seq<Op<K, V>>, ops: seq<Op<K, V>>, i: nat)
    requires i < |ops| && ops[i].Set? && |ops| - i <= cap && forall j :: i < j < |ops| ==> ops[j].key != ops[i].key
    ensures Lookup(cap, Run(cap, start + ops), ops[i].key) == Some(ops[i].val)
  {
    assert start + ops == (start + ops[..i]) + [Set(ops[i].key, ops[i].val)] + ops[i+1..];
    LastSetHits(cap, start + ops[..i], ops[i].key, ops[i].val, ops[i+1..]);
  }
}
