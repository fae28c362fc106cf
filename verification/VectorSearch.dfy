/** Vector search: nearest rows per kind, scored, merged across kinds and cut to K.
  *
  * A kind's query answers with its nearest rows in ascending distance; a failed query
  * skips the kind.  Scores are narrowed to a smaller float type, modelled by any monotone
  * rounding.
  */
module VectorSearch {
  import opened StableOrder
  import opened Wrappers

  datatype Row = Row(id: string, distance: real)
  datatype Hit = Hit(id: string, kind: string, score: real)

  const POINT_KIND := "interest_point"
  const PAGE_KIND := "wiki_page"

  ghost predicate Monotone(round: real -> real) {
    forall x, y :: x <= y ==> round(x) <= round(y)
  }

  function Max(x: real, y: real): real {
    if x < y then y else x
  }

  /** Cosine similarity from the L2 distance of unit vectors, clamped at zero. */
  function Score(distance: real, round: real -> real): real {
    round(Max(0.0, Max(-1.0, 1.0 - distance * distance / 2.0)))
  }

  function Dot(u: seq<real>, w: seq<real>): real
    requires |u| == |w|
  {
    if u == [] then 0.0 else Dot(u[..|u|-1], w[..|w|-1]) + u[|u|-1] * w[|w|-1]
  }

  /** The square of the L2 distance. */
  function SquaredDistance(u: seq<real>, w: seq<real>): real
    requires |u| == |w|
  {
    if u == [] then 0.0
    else
      var d := u[|u|-1] - w[|w|-1];
      SquaredDistance(u[..|u|-1], w[..|w|-1]) + d * d
  }

  lemma SquareOfDifference(x: real, y: real)
    ensures (x - y) * (x - y) == x * x - 2.0 * (x * y) + y * y
  {
    var d := x - y;
    assert d * d == x * d - y * d;
    assert x * d == x * x - x * y && y * d == y * x - y * y;
  }

  lemma {:induction false} DistanceOfDots(u: seq<real>, w: seq<real>)
    requires |u| == |w|
    ensures SquaredDistance(u, w) == Dot(u, u) - 2.0 * Dot(u, w) + Dot(w, w)
  {
    if u != [] {
      DistanceOfDots(u[..|u|-1], w[..|w|-1]);
      SquareOfDifference(u[|u|-1], w[|w|-1]);
    }
  }

  /** For unit vectors the score is their cosine, and zero for a negative one. */
  lemma ScoreIsCosine(u: seq<real>, w: seq<real>, distance: real, round: real -> real)
    requires |u| == |w| && Dot(u, u) == 1.0 && Dot(w, w) == 1.0 && distance * distance == SquaredDistance(u, w)
    ensures Score(distance, round) == round(if Dot(u, w) > 0.0 then Dot(u, w) else 0.0)
  {
    DistanceOfDots(u, w);
    var d2 := distance * distance;
    assert 1.0 - d2 / 2.0 == Dot(u, w);
  }

  /** A nearer row never scores lower. */
  lemma ScoreFallsWithDistance(near: real, far: real, round: real -> real)
    requires 0.0 <= near <= far && Monotone(round)
    ensures Score(near, round) >= Score(far, round)
  {
    SquaresGrow(near, far);
    var a, b := near * near, far * far;
    assert 1.0 - a / 2.0 >= 1.0 - b / 2.0;
    assert Max(0.0, Max(-1.0, 1.0 - a / 2.0)) >= Max(0.0, Max(-1.0, 1.0 - b / 2.0));
  }

  /** With exact scores, within the clamp the ranking by score is the ranking by distance. */
  lemma ScoreReflectsDistance(a: real, b: real)
    requires 0.0 <= a && 0.0 <= b && Score(a, x => x) > 0.0
    ensures Score(a, x => x) > Score(b, x => x) <==> a < b
  {
    if a < b { SquaresGrow(a, b); } else { SquaresGrow(b, a); }
  }

  lemma SquaresGrow(a: real, b: real)
    requires 0.0 <= a <= b
    ensures a * a <= b * b && (a < b ==> a * a < b * b)
  {
    var d, t := b - a, b + a;
    assert b * b - a * a == d * t;
    if a < b { ProductPositive(d, t); }
  }

  lemma ProductPositive(x: real, y: real)
    requires x > 0.0 && y > 0.0
    ensures x * y > 0.0
  {
  }

  ghost predicate Ranked(rows: seq<Row>) {
    && (forall i :: 0 <= i < |rows| ==> rows[i].distance >= 0.0)
    && (forall i, j :: 0 <= i < j < |rows| ==> rows[i].distance <= rows[j].distance)
  }

  function HitsOf(rows: seq<Row>, kind: string, round: real -> real): (r: seq<Hit>)
    ensures |r| == |rows|
  {
    seq(|rows|, i requires 0 <= i < |rows| => Hit(rows[i].id, kind, Score(rows[i].distance, round)))
  }

  function ByScore(h: Hit): real {
    h.score
  }

  function Take<T>(s: seq<T>, n: nat): (r: seq<T>)
    ensures r <= s && |r| == if n < |s| then n else |s|
  {
    if |s| <= n then s else s[..n]
  }

  /** Every row of a kind as a hit; none when the query failed. */
  function Answer(rows: Option<seq<Row>>, kind: string, round: real -> real): seq<Hit> {
    if rows.None? then [] else HitsOf(rows.value, kind, round)
  }

  lemma HitsDescend(rows: seq<Row>, kind: string, round: real -> real)
    requires Ranked(rows) && Monotone(round)
    ensures Descending(HitsOf(rows, kind, round), ByScore)
  {
    var h := HitsOf(rows, kind, round);
    forall i, j | 0 <= i < j < |h| ensures ByScore(h[i]) >= ByScore(h[j]) {
      ScoreFallsWithDistance(rows[i].distance, rows[j].distance, round);
    }
  }

  // ---------------------------------------------------------------------------------
  // Merging two ranked lists

  function Merge<T>(a: seq<T>, b: seq<T>, key: T -> real): (r: seq<T>)
    ensures |r| == |a| + |b|
  {
    if |a| == 0 then b
    else if |b| == 0 then a
    else if key(a[0]) >= key(b[0]) then [a[0]] + Merge(a[1..], b, key)
    else [b[0]] + Merge(a, b[1..], key)
  }

  lemma {:induction false} MergeBounded<T>(a: seq<T>, b: seq<T>, key: T -> real, k: real)
    requires forall i :: 0 <= i < |a| ==> key(a[i]) <= k
    requires forall i :: 0 <= i < |b| ==> key(b[i]) <= k
    ensures forall i :: 0 <= i < |Merge(a, b, key)| ==> key(Merge(a, b, key)[i]) <= k
  {
    if |a| != 0 && |b| != 0 {
      if key(a[0]) >= key(b[0]) {
        MergeBounded(a[1..], b, key, k);
      } else {
        MergeBounded(a, b[1..], key, k);
      }
    }
  }

  lemma {:induction false} MergeDescends<T>(a: seq<T>, b: seq<T>, key: T -> real)
    requires Descending(a, key) && Descending(b, key)
    ensures Descending(Merge(a, b, key), key)
  {
    if |a| != 0 && |b| != 0 {
      if key(a[0]) >= key(b[0]) {
        MergeDescends(a[1..], b, key);
        MergeBounded(a[1..], b, key, key(a[0]));
      } else {
        MergeDescends(a, b[1..], key);
        MergeBounded(a, b[1..], key, key(b[0]));
      }
    }
  }

  lemma {:induction false} NoneWithKey<T>(a: seq<T>, key: T -> real, k: real)
    requires forall i :: 0 <= i < |a| ==> key(a[i]) < k
    ensures WithKey(a, key, k) == []
  {
    if |a| != 0 { NoneWithKey(a[..|a|-1], key, k); }
  }

  lemma WithKeyHead<T>(s: seq<T>, key: T -> real, k: real)
    requires |s| > 0
    ensures key(s[0]) == k ==> WithKey(s, key, k) == [s[0]] + WithKey(s[1..], key, k)
    ensures key(s[0]) != k ==> WithKey(s, key, k) == WithKey(s[1..], key, k)
  {
    assert [s[0]] + s[1..] == s;
    WithKeyAppend([s[0]], s[1..], key, k);
    assert [s[0]][..0] == [];
    assert [] + WithKey(s[1..], key, k) == WithKey(s[1..], key, k);
  }

  lemma WithKeyCons<T>(x: T, s: seq<T>, key: T -> real, k: real)
    ensures key(x) == k ==> WithKey([x] + s, key, k) == [x] + WithKey(s, key, k)
    ensures key(x) != k ==> WithKey([x] + s, key, k) == WithKey(s, key, k)
  {
    WithKeyHead([x] + s, key, k);
    assert ([x] + s)[1..] == s;
  }

  lemma {:induction false} MergeWithKey<T>(a: seq<T>, b: seq<T>, key: T -> real, k: real)
    requires Descending(a, key) && Descending(b, key)
    ensures WithKey(Merge(a, b, key), key, k) == WithKey(a, key, k) + WithKey(b, key, k)
  {
    var wa, wb := WithKey(a, key, k), WithKey(b, key, k);
    if |a| == 0 || |b| == 0 {
      assert wa + [] == wa && [] + wb == wb;
    } else if key(a[0]) >= key(b[0]) {
      MergeWithKey(a[1..], b, key, k);
      WithKeyCons(a[0], Merge(a[1..], b, key), key, k);
      WithKeyHead(a, key, k);
      assert [a[0]] + (WithKey(a[1..], key, k) + wb) == ([a[0]] + WithKey(a[1..], key, k)) + wb;
    } else {
      MergeRight(a, b, key, k);
      MergeWithKey(a, b[1..], key, k);
    }
  }

  lemma MergeRight<T>(a: seq<T>, b: seq<T>, key: T -> real, k: real)
    requires Descending(a, key) && |a| > 0 && |b| > 0 && key(a[0]) < key(b[0])
    requires Descending(b[1..], key)
    ensures WithKey(Merge(a, b[1..], key), key, k) == WithKey(a, key, k) + WithKey(b[1..], key, k) ==>
      WithKey(Merge(a, b, key), key, k) == WithKey(a, key, k) + WithKey(b, key, k)
  {
    WithKeyCons(b[0], Merge(a, b[1..], key), key, k);
    WithKeyHead(b, key, k);
    var wa, wb := WithKey(a, key, k), WithKey(b[1..], key, k);
    if key(b[0]) == k {
      NoneWithKey(a, key, k);
      assert [] + wb == wb && [] + ([b[0]] + wb) == [b[0]] + wb;
    }
  }

  /** On two ranked lists the stable sort of their concatenation is their merge. */
  lemma SortIsMerge<T>(a: seq<T>, b: seq<T>, key: T -> real)
    requires Descending(a, key) && Descending(b, key)
    ensures Sort(a + b, key) == Merge(a, b, key)
  {
    MergeDescends(a, b, key);
    forall k: real ensures WithKey(Merge(a, b, key), key, k) == WithKey(a + b, key, k) {
      MergeWithKey(a, b, key, k);
      WithKeyAppend(a, b, key, k);
    }
    StableSortUnique(a + b, Merge(a, b, key), key);
  }

  /** The first K of a merge come from the first K of each side. */
  lemma {:induction false} MergeTake<T>(a: seq<T>, b: seq<T>, key: T -> real, k: nat)
    ensures Take(Merge(a, b, key), k) == Take(Merge(Take(a, k), Take(b, k), key), k)
    decreases k
  {
    var at, bt := Take(a, k), Take(b, k);
    if k == 0 {
      assert Take(Merge(a, b, key), 0) == [] == Take(Merge(at, bt, key), 0);
    } else if |a| != 0 && |b| != 0 {
      TakeTail(a, k);
      TakeTail(b, k);
      if key(a[0]) >= key(b[0]) {
        MergeTake(a[1..], b, key, k - 1);
        MergeTake(Take(a[1..], k - 1), bt, key, k - 1);
        TakeCons(a[0], Merge(a[1..], b, key), k);
        TakeCons(a[0], Merge(Take(a[1..], k - 1), bt, key), k);
      } else {
        MergeTake(a, b[1..], key, k - 1);
        MergeTake(at, Take(b[1..], k - 1), key, k - 1);
        TakeCons(b[0], Merge(a, b[1..], key), k);
        TakeCons(b[0], Merge(at, Take(b[1..], k - 1), key), k);
      }
    }
  }

  lemma TakeTail<T>(s: seq<T>, k: nat)
    requires k > 0 && |s| > 0
    ensures Take(s, k)[0] == s[0] && Take(s, k)[1..] == Take(s[1..], k - 1)
    ensures Take(Take(s, k), k - 1) == Take(s, k - 1)
    ensures Take(Take(s[1..], k - 1), k - 1) == Take(s[1..], k - 1)
  {
  }

  lemma TakeCons<T>(x: T, s: seq<T>, n: nat)
    requires n > 0
    ensures Take([x] + s, n) == [x] + Take(s, n - 1)
  {
  }

  /** Cutting each kind to its K nearest before merging loses nothing: the result is the
    * first K of the stable sort of every row. */
  lemma TopKIsExact(points: seq<Hit>, pages: seq<Hit>, k: nat)
    requires Descending(points, ByScore) && Descending(pages, ByScore)
    ensures Take(Sort(Take(points, k) + Take(pages, k), ByScore), k) == Take(Sort(points + pages, ByScore), k)
  {
    SortIsMerge(points, pages, ByScore);
    SortIsMerge(Take(points, k), Take(pages, k), ByScore);
    MergeTake(points, pages, ByScore, k);
  }

  // ---------------------------------------------------------------------------------
  // Search

  function Cut(topK: int): (k: nat)
    ensures k == if topK > 0 then topK else 8
  {
    if topK <= 0 then 8 else topK
  }

  /** The hits of one kind: the query returns at most `k` rows, nearest first. */
  method QueryKind(rows: Option<seq<Row>>, kind: string, k: nat, round: real -> real) returns (hits: seq<Hit>)
    ensures hits == Take(Answer(rows, kind, round), k)
  {
    hits := [];
    if rows.None? {
      return;
    }
    var answer := Take(rows.value, k);
    var i := 0;
    while i < |answer|
      invariant 0 <= i <= |answer|
      invariant hits == HitsOf(answer, kind, round)[..i]
    {
      hits := hits + [Hit(answer[i].id, kind, Score(answer[i].distance, round))];
      i := i + 1;
    }
  }

  /** `points` and `pages` are every stored row of the agent, nearest first. */
  method Search(points: Option<seq<Row>>, pages: Option<seq<Row>>, topK: int, round: real -> real)
    returns (out: seq<Hit>)
    requires Monotone(round)
    requires points.Some? ==> Ranked(points.value)
    requires pages.Some? ==> Ranked(pages.value)
    ensures out == Take(Sort(Answer(points, POINT_KIND, round) + Answer(pages, PAGE_KIND, round), ByScore), Cut(topK))
    ensures Descending(out, ByScore)
  {
    var k := Cut(topK);
    var near := QueryKind(points, POINT_KIND, k, round);
    var nearPages := QueryKind(pages, PAGE_KIND, k, round);
    if points.Some? { HitsDescend(points.value, POINT_KIND, round); }
    if pages.Some? { HitsDescend(pages.value, PAGE_KIND, round); }
    TopKIsExact(Answer(points, POINT_KIND, round), Answer(pages, PAGE_KIND, round), k);
    SortIsStable(near + nearPages, ByScore);
    out := Sort(near + nearPages, ByScore);
    if |out| > k {
      out := out[..k];
    }
  }
}
