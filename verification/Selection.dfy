/** Picking the elements of a sequence that satisfy a test, by position and by value.
  *
  * The transcript code numbers some of its messages and remembers where they were: positions
  * of user turns fix the windows, positions of rendered messages turn numbers into ranges.
  */
module Selection {
  import opened Wrappers

  /** The positions below `n` whose elements satisfy `p`, in order. */
  function Where<T>(s: seq<T>, p: T -> bool, n: nat): seq<nat>
    requires n <= |s|
    decreases n
  {
    if n == 0 then [] else Where(s, p, n - 1) + if p(s[n-1]) then [n - 1] else []
  }

  /** The elements from `lo` up to `hi` that satisfy `p`, in order. */
  function Keep<T>(s: seq<T>, p: T -> bool, lo: nat, hi: nat): seq<T>
    requires lo <= hi <= |s|
    decreases hi
  {
    if hi == lo then [] else Keep(s, p, lo, hi - 1) + if p(s[hi-1]) then [s[hi-1]] else []
  }

  predicate Increasing(idx: seq<nat>) {
    forall i, j :: 0 <= i < j < |idx| ==> idx[i] < idx[j]
  }

  lemma {:induction false} PositionsRise<T>(s: seq<T>, p: T -> bool, n: nat)
    requires n <= |s|
    ensures Increasing(Where(s, p, n))
    ensures forall k :: 0 <= k < |Where(s, p, n)| ==> Where(s, p, n)[k] < n
    decreases n
  {
    if n > 0 { PositionsRise(s, p, n - 1); }
  }

  // ---------------------------------------------------------------------------------
  // Parts of a sequence, told by positions

  /** `out` holds the elements of `s` at the positions `pos`, in order. */
  ghost predicate Picks<T>(s: seq<T>, pos: seq<nat>, out: seq<T>) {
    && Increasing(pos) && |pos| == |out|
    && forall k :: 0 <= k < |pos| ==> pos[k] < |s| && out[k] == s[pos[k]]
  }

  /** `out` holds the values present in `opts`, all of them and in order; `pos` says where. */
  ghost predicate PicksSome<T>(opts: seq<Option<T>>, pos: seq<nat>, out: seq<T>) {
    && Increasing(pos) && |pos| == |out|
    && (forall k :: 0 <= k < |pos| ==> pos[k] < |opts| && opts[pos[k]] == Some(out[k]))
    && (forall i: nat :: i < |opts| && opts[i].Some? ==> i in pos)
  }

  /** The values present in `opts`, in order. */
  ghost predicate Somes<T>(opts: seq<Option<T>>, out: seq<T>) {
    exists pos :: PicksSome(opts, pos, out)
  }

  function Present<T>(opts: seq<Option<T>>): seq<T> {
    if opts == [] then []
    else
      var front, o := Present(opts[..|opts|-1]), opts[|opts|-1];
      if o.Some? then front + [o.value] else front
  }

  lemma {:induction false} PresentIs<T>(opts: seq<Option<T>>)
    ensures Somes(opts, Present(opts))
  {
    if opts == [] {
      assert PicksSome<T>([], [], []);
    } else {
      var front, last := opts[..|opts|-1], opts[|opts|-1];
      assert opts == front + [last];
      PresentIs(front);
      OneMoreSome(front, Present(front), last);
    }
  }

  lemma PresentMore<T>(opts: seq<Option<T>>, o: Option<T>)
    ensures Present(opts + [o]) == if o.Some? then Present(opts) + [o.value] else Present(opts)
  {
    assert (opts + [o])[..|opts|] == opts;
  }

  lemma PicksOneMore<T>(opts: seq<Option<T>>, pos: seq<nat>, out: seq<T>, x: T)
    requires PicksSome(opts, pos, out)
    ensures PicksSome(opts + [Some(x)], pos + [|opts|], out + [x])
  {
    var more, next: seq<nat> := opts + [Some(x)], pos + [|opts|];
    forall i: nat | i < |more| && more[i].Some? ensures i in next {
      if i < |opts| {
        assert opts[i].Some?;
        var k :| 0 <= k < |pos| && pos[k] == i;
        assert next[k] == i;
      } else {
        assert next[|pos|] == i;
      }
    }
  }

  lemma OneMoreSome<T>(opts: seq<Option<T>>, out: seq<T>, o: Option<T>)
    requires Somes(opts, out)
    ensures Somes(opts + [o], if o.Some? then out + [o.value] else out)
  {
    var pos :| PicksSome(opts, pos, out);
    if o.Some? {
      PicksOneMore(opts, pos, out, o.value);
      assert o == Some(o.value);
    } else {
      assert PicksSome(opts + [o], pos, out);
    }
  }

  lemma {:induction false} PresentCons<T>(o: Option<T>, opts: seq<Option<T>>)
    ensures Present([o] + opts) == (if o.Some? then [o.value] else []) + Present(opts)
  {
    var all := [o] + opts;
    if opts == [] {
      assert all == [] + [o];
      PresentMore([], o);
      assert Present<T>([]) == [];
    } else {
      var front, last := opts[..|opts|-1], opts[|opts|-1];
      PresentCons(o, front);
      assert all == ([o] + front) + [last] && opts == front + [last];
      PresentMore([o] + front, last);
      PresentMore(front, last);
    }
  }

  /** `outs[i + 1]` is `outs[i]` with the value of `opts[i]`, if it has one. */
  ghost predicate StepAt<T>(opts: seq<Option<T>>, outs: seq<seq<T>>, i: nat) {
    && i < |opts| && i + 1 < |outs|
    && outs[i+1] == if opts[i].Some? then outs[i] + [opts[i].value] else outs[i]
  }

  lemma {:induction false} PresentBySteps<T>(opts: seq<Option<T>>, outs: seq<seq<T>>, n: nat)
    requires n <= |opts| && |outs| == |opts| + 1 && outs[0] == []
    requires forall i: nat :: i < |opts| ==> StepAt(opts, outs, i)
    ensures Present(opts[..n]) == outs[n]
    decreases n
  {
    if n > 0 {
      PresentBySteps(opts, outs, n - 1);
      assert StepAt(opts, outs, n - 1);
      PresentMore(opts[..n-1], opts[n-1]);
      assert opts[..n] == opts[..n-1] + [opts[n-1]];
    }
  }

  lemma SomesBySteps<T>(opts: seq<Option<T>>, outs: seq<seq<T>>)
    requires |outs| == |opts| + 1 && outs[0] == [] && forall i: nat :: i < |opts| ==> StepAt(opts, outs, i)
    ensures Somes(opts, outs[|opts|])
  {
    PresentBySteps(opts, outs, |opts|);
    assert opts[..|opts|] == opts;
    PresentIs(opts);
  }

  lemma SomesFit<T>(opts: seq<Option<T>>, out: seq<T>)
    requires Somes(opts, out)
    ensures |out| <= |opts|
  {
    var pos :| PicksSome(opts, pos, out);
    IncreasingFits(pos, |opts|);
  }

  lemma {:induction false} IncreasingFits(pos: seq<nat>, n: nat)
    requires Increasing(pos) && forall k :: 0 <= k < |pos| ==> pos[k] < n
    ensures |pos| <= n
    decreases |pos|
  {
    if pos != [] { IncreasingFits(pos[..|pos|-1], pos[|pos|-1]); }
  }

  lemma SomeAt<T>(opts: seq<Option<T>>, out: seq<T>, x: T) returns (i: nat)
    requires Somes(opts, out) && x in out
    ensures i < |opts| && opts[i] == Some(x)
  {
    var pos :| PicksSome(opts, pos, out);
    var k :| 0 <= k < |out| && out[k] == x;
    i := pos[k];
  }

  /** The `g`-th of the blocks that `cuts` divides `whole` into is `part`. */
  ghost predicate BlockAt<T>(whole: seq<T>, cuts: seq<nat>, g: nat, part: seq<T>) {
    g + 1 < |cuts| && cuts[g] <= cuts[g+1] <= |whole| && whole[cuts[g]..cuts[g+1]] == part
  }

  /** `cuts` divides `whole` into the blocks `parts`, in order and without a gap. */
  ghost predicate Blocks<T>(whole: seq<T>, cuts: seq<nat>, parts: seq<seq<T>>) {
    && |cuts| == |parts| + 1 && cuts[0] == 0 && cuts[|parts|] == |whole|
    && forall g :: 0 <= g < |parts| ==> BlockAt(whole, cuts, g, parts[g])
  }

  lemma NoBlocks<T>()
    ensures Blocks<T>([], [0], [])
  {
  }

  lemma OneMoreBlock<T>(whole: seq<T>, cuts: seq<nat>, parts: seq<seq<T>>, more: seq<T>)
    requires Blocks(whole, cuts, parts)
    ensures Blocks(whole + more, cuts + [|whole| + |more|], parts + [more])
  {
    var w, c, p := whole + more, cuts + [|whole| + |more|], parts + [more];
    forall g | 0 <= g < |p| ensures BlockAt(w, c, g, p[g]) {
      if g < |parts| {
        assert BlockAt(whole, cuts, g, parts[g]);
        assert w[c[g]..c[g+1]] == whole[cuts[g]..cuts[g+1]];
      } else {
        assert w[c[g]..c[g+1]] == more;
      }
    }
  }

  lemma InOrder(idx: seq<nat>, a: nat, b: nat)
    requires Increasing(idx) && a <= b < |idx|
    ensures idx[a] <= idx[b] && (a < b ==> idx[a] < idx[b])
  {
  }

  lemma {:induction false} WhereIs<T>(s: seq<T>, p: T -> bool, n: nat)
    requires n <= |s|
    ensures forall i: nat :: i in Where(s, p, n) <==> i < n && p(s[i])
    decreases n
  {
    if n > 0 { WhereIs(s, p, n - 1); }
  }

  /** The k-th position is preceded by k others. */
  lemma {:induction false} NthPosition<T>(s: seq<T>, p: T -> bool, n: nat, k: nat)
    requires n <= |s| && k < |Where(s, p, n)|
    ensures var i := Where(s, p, n)[k];
      i < n && p(s[i]) && |Where(s, p, i)| == k && |Where(s, p, i + 1)| == k + 1
    decreases n
  {
    if k < |Where(s, p, n - 1)| { NthPosition(s, p, n - 1, k); }
  }

  lemma {:induction false} WhereCounts<T>(s: seq<T>, p: T -> bool, n: nat)
    requires n <= |s|
    ensures |Keep(s, p, 0, n)| == |Where(s, p, n)|
    ensures forall k :: 0 <= k < |Where(s, p, n)| ==>
      Where(s, p, n)[k] < |s| && Keep(s, p, 0, n)[k] == s[Where(s, p, n)[k]]
    decreases n
  {
    if n > 0 { WhereCounts(s, p, n - 1); }
  }

  /** What is kept are the elements at the positions found. */
  lemma KeepPicks<T>(s: seq<T>, p: T -> bool)
    ensures Picks(s, Where(s, p, |s|), Keep(s, p, 0, |s|))
    ensures forall i: nat :: i in Where(s, p, |s|) <==> i < |s| && p(s[i])
  {
    PositionsRise(s, p, |s|);
    WhereCounts(s, p, |s|);
    WhereIs(s, p, |s|);
  }

  lemma {:induction false} KeepHolds<T>(s: seq<T>, p: T -> bool, n: nat, x: T)
    requires n <= |s|
    ensures x in Keep(s, p, 0, n) <==> p(x) && x in s[..n]
    decreases n
  {
    if n > 0 {
      KeepHolds(s, p, n - 1, x);
      assert s[..n] == s[..n-1] + [s[n-1]];
    }
  }

  lemma {:induction false} KeepSplits<T>(s: seq<T>, p: T -> bool, lo: nat, mid: nat, hi: nat)
    requires lo <= mid <= hi <= |s|
    ensures Keep(s, p, lo, hi) == Keep(s, p, lo, mid) + Keep(s, p, mid, hi)
    decreases hi
  {
    if mid < hi {
      KeepSplits(s, p, lo, mid, hi - 1);
    }
  }

  /** Positions counted from `n` further back. */
  function Shift(idx: seq<nat>, n: nat): (r: seq<nat>)
    ensures |r| == |idx| && forall k :: 0 <= k < |r| ==> r[k] == idx[k] + n
  {
    seq(|idx|, k requires 0 <= k < |idx| => idx[k] + n)
  }

  /** `w` is the stretch of `s` that starts at `o`. */
  ghost predicate StretchOf<T>(s: seq<T>, w: seq<T>, o: nat) {
    o + |w| <= |s| && forall k {:trigger w[k]} :: 0 <= k < |w| ==> w[k] == s[o + k]
  }

  lemma SliceIsStretch<T>(s: seq<T>, o: nat, n: nat)
    requires o <= n <= |s|
    ensures StretchOf(s, s[o..n], o)
  {
  }

  lemma {:induction false} WherePrefix<T>(s: seq<T>, p: T -> bool, m: nat, n: nat)
    requires m <= n <= |s|
    ensures |Where(s, p, m)| <= |Where(s, p, n)|
    ensures forall k :: 0 <= k < |Where(s, p, m)| ==> Where(s, p, n)[k] == Where(s, p, m)[k]
    decreases n
  {
    if m < n { WherePrefix(s, p, m, n - 1); }
  }

  /** Positions found in a stretch of `s`, counted from its start, continue those before it. */
  lemma {:induction false} WhereInStretch<T>(s: seq<T>, w: seq<T>, p: T -> bool, o: nat, n: nat)
    requires n <= |w| && StretchOf(s, w, o)
    ensures Where(s, p, o + n) == Where(s, p, o) + Shift(Where(w, p, n), o)
    decreases n
  {
    if n > 0 {
      WhereInStretch(s, w, p, o, n - 1);
      assert w[n-1] == s[o + n - 1];
    }
  }

  /** From the a-th position to the b-th, exactly elements a to b are kept. */
  lemma StretchKeeps<T>(s: seq<T>, p: T -> bool, a: nat, b: nat)
    requires a <= b < |Where(s, p, |s|)|
    ensures var lo, hi := Where(s, p, |s|)[a], Where(s, p, |s|)[b] + 1;
      && lo < hi <= |s| && b < |Keep(s, p, 0, |s|)|
      && Keep(s, p, lo, hi) == Keep(s, p, 0, |s|)[a..b+1]
  {
    PositionsRise(s, p, |s|);
    InOrder(Where(s, p, |s|), a, b);
    var lo, hi := Where(s, p, |s|)[a], Where(s, p, |s|)[b] + 1;
    NthPosition(s, p, |s|, a);
    NthPosition(s, p, |s|, b);
    WhereCounts(s, p, lo);
    WhereCounts(s, p, hi);
    WhereCounts(s, p, |s|);
    KeepSplits(s, p, 0, lo, hi);
    KeepSplits(s, p, 0, hi, |s|);
  }

  /** The first `n` elements folded into `a` from the left. */
  function FoldLeft<A, B>(f: (A, B) -> A, a: A, s: seq<B>, n: nat): A
    requires n <= |s|
    decreases n
  {
    if n == 0 then a else f(FoldLeft(f, a, s, n - 1), s[n-1])
  }

  lemma {:induction false} FoldLeftSame<A, B>(f: (A, B) -> A, a: A, x: seq<B>, y: seq<B>, n: nat)
    requires n <= |x| && n <= |y| && forall i :: 0 <= i < n ==> x[i] == y[i]
    ensures FoldLeft(f, a, x, n) == FoldLeft(f, a, y, n)
    decreases n
  {
    if n > 0 { FoldLeftSame(f, a, x, y, n - 1); }
  }

  lemma {:induction false} FoldLeftAppend<A, B>(f: (A, B) -> A, a: A, x: seq<B>, y: seq<B>, xy: seq<B>, n: nat)
    requires xy == x + y && n <= |y|
    ensures FoldLeft(f, a, xy, |x| + n) == FoldLeft(f, FoldLeft(f, a, x, |x|), y, n)
    decreases n
  {
    if n == 0 {
      FoldLeftSame(f, a, x, xy, |x|);
    } else {
      FoldLeftAppend(f, a, x, y, xy, n - 1);
      assert xy[|x| + n - 1] == y[n-1];
    }
  }

  /** Two sequences that fold to the same fold to the same with more after them. */
  lemma {:induction false} FoldLeftMore<A, B>(f: (A, B) -> A, a: A, x: seq<B>, y: seq<B>, more: seq<B>)
    requires FoldLeft(f, a, x, |x|) == FoldLeft(f, a, y, |y|)
    ensures FoldLeft(f, a, x + more, |x + more|) == FoldLeft(f, a, y + more, |y + more|)
  {
    FoldLeftAppend(f, a, x, more, x + more, |more|);
    FoldLeftAppend(f, a, y, more, y + more, |more|);
  }
}
