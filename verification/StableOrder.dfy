/** Stable descending order by a real key.
  *
  * Search ranks hits with a stable sort on score, and a conflict queue is ordered in
  * place by a stable insertion sort on affinity.  `StablySorted` says what such a sort
  * promises without naming an algorithm; `Determined` shows that the promise leaves one
  * result only, so any two stable sorts agree.
  */
module StableOrder {

  predicate Descending<T>(s: seq<T>, key: T -> real) {
    forall i, j :: 0 <= i < j < |s| ==> key(s[i]) >= key(s[j])
  }

  /** The elements of `s` whose key is exactly `k`, in their order in `s`. */
  function WithKey<T>(s: seq<T>, key: T -> real, k: real): seq<T> {
    if |s| == 0 then []
    else WithKey(s[..|s|-1], key, k) + if key(s[|s|-1]) == k then [s[|s|-1]] else []
  }

  /** `t` is `s` in descending order with ties left in their original order. */
  ghost predicate StablySorted<T>(s: seq<T>, t: seq<T>, key: T -> real) {
    && Descending(t, key)
    && forall k: real :: WithKey(t, key, k) == WithKey(s, key, k)
  }

  /** Moves `x` left past every trailing element of `t` with a smaller key. */
  function InsertLast<T>(t: seq<T>, x: T, key: T -> real): (r: seq<T>)
    ensures |r| == |t| + 1
  {
    if |t| == 0 || key(t[|t|-1]) >= key(x) then t + [x]
    else InsertLast(t[..|t|-1], x, key) + [t[|t|-1]]
  }

  function Sort<T>(s: seq<T>, key: T -> real): (r: seq<T>)
    ensures |r| == |s|
  {
    if |s| == 0 then [] else InsertLast(Sort(s[..|s|-1], key), s[|s|-1], key)
  }

  lemma {:induction false} WithKeyAppend<T>(a: seq<T>, b: seq<T>, key: T -> real, k: real)
    ensures WithKey(a + b, key, k) == WithKey(a, key, k) + WithKey(b, key, k)
  {
    if |b| == 0 {
      assert a + b == a;
    } else {
      assert (a + b)[..|a + b|-1] == a + b[..|b|-1];
      WithKeyAppend(a, b[..|b|-1], key, k);
    }
  }

  lemma {:induction false} WithKeyFound<T>(s: seq<T>, key: T -> real, k: real) returns (i: nat)
    requires |WithKey(s, key, k)| > 0
    ensures i < |s| && key(s[i]) == k
  {
    if key(s[|s|-1]) == k {
      i := |s| - 1;
    } else {
      i := WithKeyFound(s[..|s|-1], key, k);
    }
  }

  lemma {:induction false} InsertLastWithKey<T>(t: seq<T>, x: T, key: T -> real, k: real)
    ensures WithKey(InsertLast(t, x, key), key, k) == WithKey(t + [x], key, k)
  {
    if |t| != 0 && key(t[|t|-1]) < key(x) {
      var front, z := t[..|t|-1], t[|t|-1];
      InsertLastWithKey(front, x, key, k);
      assert t == front + [z];
      assert (t + [x])[..|t|] == t;
      assert (front + [x])[..|front|] == front;
      assert (InsertLast(front, x, key) + [z])[..|t|] == InsertLast(front, x, key);
    }
  }

  lemma {:induction false} InsertLastDescending<T>(t: seq<T>, x: T, key: T -> real)
    requires Descending(t, key)
    ensures Descending(InsertLast(t, x, key), key)
    ensures forall y :: y in InsertLast(t, x, key) ==> y in t || y == x
  {
    if |t| != 0 && key(t[|t|-1]) < key(x) {
      var front, z := t[..|t|-1], t[|t|-1];
      InsertLastDescending(front, x, key);
      var r := InsertLast(front, x, key);
      forall i | 0 <= i < |r| ensures key(r[i]) >= key(z) {
        assert r[i] in r;
      }
    }
  }

  /** The insertion sort meets the promise of a stable descending sort. */
  lemma {:induction false} SortIsStable<T>(s: seq<T>, key: T -> real)
    ensures StablySorted(s, Sort(s, key), key)
  {
    if |s| != 0 {
      var front, x := s[..|s|-1], s[|s|-1];
      SortIsStable(front, key);
      InsertLastDescending(Sort(front, key), x, key);
      forall k: real ensures WithKey(Sort(s, key), key, k) == WithKey(s, key, k) {
        assert WithKey(Sort(front, key), key, k) == WithKey(front, key, k);
        InsertKeepsKeys(Sort(front, key), front, x, key, k);
        assert s == front + [x];
      }
    }
  }

  lemma InsertKeepsKeys<T>(t: seq<T>, s: seq<T>, x: T, key: T -> real, k: real)
    requires WithKey(t, key, k) == WithKey(s, key, k)
    ensures WithKey(InsertLast(t, x, key), key, k) == WithKey(s + [x], key, k)
  {
    InsertLastWithKey(t, x, key, k);
    WithKeyAppend(t, [x], key, k);
    WithKeyAppend(s, [x], key, k);
  }

  lemma LastHasKey<T>(s: seq<T>, key: T -> real)
    requires |s| > 0
    ensures |WithKey(s, key, key(s[|s|-1]))| > 0
  {
  }

  lemma LastEqual<T>(a: seq<T>, x: T, b: seq<T>, y: T)
    requires a + [x] == b + [y]
    ensures a == b && x == y
  {
    assert |a| == |b|;
    assert (a + [x])[|a|] == x && (b + [y])[|b|] == y;
    assert (a + [x])[..|a|] == a && (b + [y])[..|b|] == b;
  }

  lemma LastAgrees<T>(t: seq<T>, u: seq<T>, key: T -> real)
    requires |t| > 0 && |u| > 0 && Descending(t, key) && Descending(u, key)
    requires forall k: real :: WithKey(t, key, k) == WithKey(u, key, k)
    ensures t[|t|-1] == u[|u|-1]
  {
    var a, b := t[|t|-1], u[|u|-1];
    LastHasKey(t, key);
    LastHasKey(u, key);
    var i := WithKeyFound(u, key, key(a));
    var j := WithKeyFound(t, key, key(b));
    assert key(a) == key(b);
    LastEqual(WithKey(t[..|t|-1], key, key(a)), a, WithKey(u[..|u|-1], key, key(a)), b);
  }

  lemma FrontAgrees<T>(t: seq<T>, u: seq<T>, key: T -> real, k: real)
    requires |t| > 0 && |u| > 0 && t[|t|-1] == u[|u|-1]
    requires WithKey(t, key, k) == WithKey(u, key, k)
    ensures WithKey(t[..|t|-1], key, k) == WithKey(u[..|u|-1], key, k)
  {
    var x, tf, uf := t[|t|-1], WithKey(t[..|t|-1], key, k), WithKey(u[..|u|-1], key, k);
    if key(x) == k {
      LastEqual(tf, x, uf, x);
    } else {
      assert tf + [] == tf && uf + [] == uf;
    }
  }

  /** A stable descending sort has only one possible result. */
  lemma {:induction false} Determined<T>(t: seq<T>, u: seq<T>, key: T -> real)
    requires Descending(t, key) && Descending(u, key)
    requires forall k: real :: WithKey(t, key, k) == WithKey(u, key, k)
    ensures t == u
  {
    if |t| == 0 || |u| == 0 {
      if |t| != 0 { LastHasKey(t, key); }
      if |u| != 0 { LastHasKey(u, key); }
    } else {
      LastAgrees(t, u, key);
      var tf, uf := t[..|t|-1], u[..|u|-1];
      forall k: real ensures WithKey(tf, key, k) == WithKey(uf, key, k) {
        FrontAgrees(t, u, key, k);
      }
      Determined(tf, uf, key);
      assert t == tf + [t[|t|-1]] && u == uf + [u[|u|-1]];
    }
  }

  /** Any stable descending rearrangement of `s` is the one `Sort` computes. */
  lemma StableSortUnique<T>(s: seq<T>, t: seq<T>, key: T -> real)
    requires StablySorted(s, t, key)
    ensures t == Sort(s, key)
  {
    SortIsStable(s, key);
    Determined(t, Sort(s, key), key);
  }
}
