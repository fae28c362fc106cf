/** The hits of a query: dropping repetitions and ranking.
  *
  * Search keeps the first hit on each id and ranks what is left.  `OrdersAgreeIff` says when
  * ranking first, as the deduplication describes itself, would give the same list.
  */
module Hits {
  import opened Graph
  import opened Selection
  import opened StableOrder
  import opened Wrappers

  datatype HitKind = PointHit | PageHit

  datatype Hit = Hit(kind: HitKind, id: Id, score: real)

  predicate Names(s: seq<Hit>, id: Id) {
    exists i :: 0 <= i < |s| && s[i].id == id
  }

  /** The first hit on each id, in order. */
  function FirstPerId(s: seq<Hit>): seq<Hit> {
    if s == [] then []
    else FirstPerId(s[..|s|-1]) + if Names(s[..|s|-1], s[|s|-1].id) then [] else [s[|s|-1]]
  }

  ghost predicate IsFirst(s: seq<Hit>, h: Hit) {
    exists i :: 0 <= i < |s| && s[i] == h && !Names(s[..i], h.id)
  }

  lemma {:induction false} FirstPerIdIs(s: seq<Hit>)
    ensures forall h :: h in FirstPerId(s) <==> IsFirst(s, h)
    ensures forall i, j :: 0 <= i < j < |FirstPerId(s)| ==> FirstPerId(s)[i].id != FirstPerId(s)[j].id
  {
    if s != [] {
      var front, last := s[..|s|-1], s[|s|-1];
      FirstPerIdIs(front);
      forall h ensures h in FirstPerId(s) <==> IsFirst(s, h) {
        FirstExtends(front, last, h);
        assert front + [last] == s;
      }
      forall h | h in FirstPerId(front) ensures Names(front, h.id) {
        var i :| 0 <= i < |front| && front[i] == h && !Names(front[..i], h.id);
      }
    }
  }

  /** The hits that are the first on their id, the others left blank. */
  function Openers(s: seq<Hit>): (r: seq<Option<Hit>>)
    ensures |r| == |s| && forall i :: 0 <= i < |s| ==> r[i] == if Opens(s, i) then Some(s[i]) else None
  {
    seq(|s|, i requires 0 <= i < |s| => if Opens(s, i) then Some(s[i]) else None)
  }

  lemma OpenersMore(front: seq<Hit>, last: Hit)
    ensures Openers(front + [last]) == Openers(front) + [if Names(front, last.id) then None else Some(last)]
  {
    var s := front + [last];
    assert s[..|front|] == front;
    forall i: nat | i < |front| ensures Opens(s, i) <==> Opens(front, i) { assert s[..i] == front[..i]; }
  }

  lemma {:induction false} FirstPerIdIsPresent(s: seq<Hit>)
    ensures FirstPerId(s) == Present(Openers(s))
    decreases |s|
  {
    if s == [] {
      assert Openers(s) == [];
    } else {
      var front, last := s[..|s|-1], s[|s|-1];
      FirstPerIdIsPresent(front);
      OpenersMore(front, last);
      assert s == front + [last];
      PresentMore(Openers(front), if Names(front, last.id) then None else Some(last));
    }
  }

  /** The hits kept are those that are the first on their id, in the order found. */
  lemma FirstPerIdPicks(s: seq<Hit>)
    ensures Somes(Openers(s), FirstPerId(s))
  {
    FirstPerIdIsPresent(s);
    PresentIs(Openers(s));
  }

  lemma FirstExtends(front: seq<Hit>, last: Hit, h: Hit)
    ensures IsFirst(front + [last], h) <==> IsFirst(front, h) || (h == last && !Names(front, h.id))
  {
    var s := front + [last];
    assert s[..|front|] == front;
    forall i | 0 <= i < |front| ensures s[..i] == front[..i] {}
    if IsFirst(front, h) {
      var i :| 0 <= i < |front| && front[i] == h && !Names(front[..i], h.id);
      assert s[i] == h && !Names(s[..i], h.id);
    }
    if h == last && !Names(front, h.id) {
      assert s[|front|] == h && !Names(s[..|front|], h.id);
    }
  }

  function ByScore(h: Hit): real {
    h.score
  }

  /** Hit `i` is the first on its id. */
  predicate Opens(s: seq<Hit>, i: nat) {
    i < |s| && !Names(s[..i], s[i].id)
  }

  predicate Outscores(s: seq<Hit>, i: nat) {
    i < |s| && forall j :: i < j < |s| && s[j].id == s[i].id ==> s[i].score >= s[j].score
  }

  /** No later hit on an id scores above the first. */
  ghost predicate FirstIsBest(s: seq<Hit>) {
    forall i: nat :: Opens(s, i) ==> Outscores(s, i)
  }

  ghost predicate Represented(s: seq<Hit>, h: Hit) {
    exists d :: d in FirstPerId(s) && d.id == h.id && d.score >= h.score
  }

  ghost predicate BestKept(s: seq<Hit>) {
    forall h :: h in s ==> Represented(s, h)
  }

  lemma OpeningKept(s: seq<Hit>, i: nat)
    requires Opens(s, i)
    ensures s[i] in FirstPerId(s)
  {
    FirstPerIdIs(s);
    assert IsFirst(s, s[i]);
  }

  lemma {:induction false} FirstOn(s: seq<Hit>, j: nat) returns (k: nat)
    requires j < |s|
    ensures k <= j && Opens(s, k) && s[k].id == s[j].id && s[k] in FirstPerId(s)
    decreases j
  {
    if Names(s[..j], s[j].id) {
      var i :| 0 <= i < j && s[..j][i].id == s[j].id;
      k := FirstOn(s, i);
    } else {
      k := j;
      OpeningKept(s, k);
    }
  }

  lemma KeptOnce(s: seq<Hit>, d: Hit, e: Hit)
    requires d in FirstPerId(s) && e in FirstPerId(s) && d.id == e.id
    ensures d == e
  {
    FirstPerIdIs(s);
  }

  lemma OpeningOutscores(s: seq<Hit>, i: nat)
    requires BestKept(s) && Opens(s, i)
    ensures Outscores(s, i)
  {
    OpeningKept(s, i);
    forall j | i < j < |s| && s[j].id == s[i].id ensures s[i].score >= s[j].score {
      assert s[j] in s && Represented(s, s[j]);
      var d :| d in FirstPerId(s) && d.id == s[j].id && d.score >= s[j].score;
      KeptOnce(s, d, s[i]);
    }
  }

  /** Hits are deduplicated before they are ranked, so the best hit on every id survives
    * exactly when each id's first hit is already its best. */
  lemma DedupeKeepsBestIff(s: seq<Hit>)
    ensures BestKept(s) <==> FirstIsBest(s)
  {
    if FirstIsBest(s) {
      forall h | h in s ensures Represented(s, h) {
        var j: nat :| j < |s| && s[j] == h;
        var k := FirstOn(s, j);
        assert Outscores(s, k);
      }
    }
    if BestKept(s) {
      forall i: nat | Opens(s, i) ensures Outscores(s, i) { OpeningOutscores(s, i); }
    }
  }

  /** In descending score the first hit on an id is its best, so nothing better is dropped. */
  lemma DescendingKeepsBest(s: seq<Hit>)
    requires Descending(s, ByScore)
    ensures FirstIsBest(s) && BestKept(s)
  {
    forall i: nat | Opens(s, i) ensures Outscores(s, i) {
      forall j | i < j < |s| ensures s[i].score >= s[j].score { assert ByScore(s[i]) >= ByScore(s[j]); }
    }
    DedupeKeepsBestIff(s);
  }

  /** Nor is anything better dropped from two lists, one after the other, with no id in common. */
  lemma DisjointKeepsBest(a: seq<Hit>, b: seq<Hit>)
    requires FirstIsBest(a) && FirstIsBest(b) && forall id :: !Names(a, id) || !Names(b, id)
    ensures FirstIsBest(a + b)
  {
    var s := a + b;
    forall i: nat | Opens(s, i) ensures Outscores(s, i) {
      if i < |a| {
        assert s[..i] == a[..i] && Opens(a, i) && Names(a, s[i].id);
        assert !Names(b, s[i].id);
        forall j | i < j < |s| && s[j].id == s[i].id ensures s[i].score >= s[j].score {
          assert j < |a|;
        }
      } else {
        var n := i - |a|;
        assert Opens(b, n) by {
          assert s[..i] == a + b[..n];
          forall m | 0 <= m < n ensures b[..n][m].id != b[n].id { assert s[..i][|a| + m].id != s[i].id; }
        }
        assert Outscores(b, n);
        forall j | i < j < |s| && s[j].id == s[i].id ensures s[i].score >= s[j].score {
          assert s[j] == b[j - |a|];
        }
      }
    }
  }

  lemma {:induction false} InsertedIs(t: seq<Hit>, x: Hit, h: Hit)
    ensures h in InsertLast(t, x, ByScore) <==> h in t || h == x
  {
    if |t| != 0 && ByScore(t[|t|-1]) < ByScore(x) {
      InsertedIs(t[..|t|-1], x, h);
      assert t == t[..|t|-1] + [t[|t|-1]];
    }
  }

  lemma {:induction false} SortedIs(s: seq<Hit>, h: Hit)
    ensures h in Sort(s, ByScore) <==> h in s
  {
    if s != [] {
      SortedIs(s[..|s|-1], h);
      InsertedIs(Sort(s[..|s|-1], ByScore), s[|s|-1], h);
      assert s == s[..|s|-1] + [s[|s|-1]];
    }
  }

  lemma NamesIff(s: seq<Hit>, id: Id)
    ensures Names(s, id) <==> exists h :: h in s && h.id == id
  {
    if h :| h in s && h.id == id {
      var i :| 0 <= i < |s| && s[i] == h;
      assert s[i].id == id;
    }
    if i :| 0 <= i < |s| && s[i].id == id { assert s[i] in s; }
  }

  lemma FirstPerIdSnoc(s: seq<Hit>, x: Hit)
    ensures FirstPerId(s + [x]) == if Names(s, x.id) then FirstPerId(s) else FirstPerId(s) + [x]
  {
    assert (s + [x])[..|s|] == s;
    assert FirstPerId(s) + [] == FirstPerId(s);
  }

  lemma InsertedNames(t: seq<Hit>, x: Hit, id: Id)
    ensures Names(InsertLast(t, x, ByScore), id) <==> Names(t, id) || x.id == id
  {
    NamesIff(InsertLast(t, x, ByScore), id);
    NamesIff(t, id);
    forall h ensures h in InsertLast(t, x, ByScore) <==> h in t || h == x { InsertedIs(t, x, h); }
    assert x in InsertLast(t, x, ByScore);
  }

  /** Ranking a further hit on an id behind a hit at least as good changes no first hit. */
  lemma {:induction false} InsertRepeated(t: seq<Hit>, x: Hit, i: nat)
    requires i < |t| && t[i].id == x.id && t[i].score >= x.score
    ensures FirstPerId(InsertLast(t, x, ByScore)) == FirstPerId(t)
  {
    if ByScore(t[|t|-1]) >= ByScore(x) {
      FirstPerIdSnoc(t, x);
    } else {
      var front, z := t[..|t|-1], t[|t|-1];
      InsertRepeated(front, x, i);
      assert front[i].id == x.id;
      InsertedNames(front, x, z.id);
      FirstPerIdSnoc(InsertLast(front, x, ByScore), z);
    }
  }

  lemma LastKept(t: seq<Hit>)
    requires Descending(t, ByScore) && FirstPerId(t) != []
    ensures t != [] && FirstPerId(t)[|FirstPerId(t)|-1].score >= t[|t|-1].score
  {
    var f := FirstPerId(t);
    FirstPerIdIs(t);
    assert f[|f|-1] in f && IsFirst(t, f[|f|-1]);
    var i :| 0 <= i < |t| && t[i] == f[|f|-1];
    assert i < |t| - 1 ==> ByScore(t[i]) >= ByScore(t[|t|-1]);
  }

  lemma InsertNewStep(front: seq<Hit>, z: Hit, x: Hit)
    requires FirstPerId(InsertLast(front, x, ByScore)) == InsertLast(FirstPerId(front), x, ByScore)
    requires z.id != x.id && z.score < x.score
    ensures FirstPerId(InsertLast(front, x, ByScore) + [z]) == InsertLast(FirstPerId(front + [z]), x, ByScore)
  {
    InsertedNames(front, x, z.id);
    FirstPerIdSnoc(InsertLast(front, x, ByScore), z);
    FirstPerIdSnoc(front, z);
    if !Names(front, z.id) { assert (FirstPerId(front) + [z])[..|FirstPerId(front)|] == FirstPerId(front); }
  }

  /** Ranking a hit on a new id and dropping repetitions can be done in either order. */
  lemma {:induction false} InsertNew(t: seq<Hit>, x: Hit)
    requires Descending(t, ByScore) && !Names(t, x.id)
    ensures FirstPerId(InsertLast(t, x, ByScore)) == InsertLast(FirstPerId(t), x, ByScore)
  {
    if t == [] || ByScore(t[|t|-1]) >= ByScore(x) {
      FirstPerIdSnoc(t, x);
      if FirstPerId(t) != [] { LastKept(t); }
    } else {
      var front, z := t[..|t|-1], t[|t|-1];
      assert t == front + [z];
      NamesExtend(front, z);
      InsertNew(front, x);
      InsertNewStep(front, z, x);
    }
  }

  lemma FirstIsBestFront(s: seq<Hit>, x: Hit)
    requires FirstIsBest(s + [x])
    ensures FirstIsBest(s)
    ensures Names(s, x.id) ==> exists h :: h in s && h.id == x.id && h.score >= x.score
  {
    var t := s + [x];
    forall i: nat | Opens(s, i) ensures Outscores(s, i) {
      assert t[..i] == s[..i] && Opens(t, i);
      assert Outscores(t, i);
      forall j | i < j < |s| && s[j].id == s[i].id ensures s[i].score >= s[j].score { assert t[j] == s[j]; }
    }
    if Names(s, x.id) {
      var j :| 0 <= j < |s| && s[j].id == x.id;
      var k := FirstOn(s, j);
      assert t[..k] == s[..k] && Opens(t, k) && Outscores(t, k);
      assert t[|s|].id == t[k].id && t[k] in s;
    }
  }

  lemma NewToSorted(s: seq<Hit>, id: Id)
    ensures Names(Sort(s, ByScore), id) <==> Names(s, id)
  {
    NamesIff(s, id);
    NamesIff(Sort(s, ByScore), id);
    forall h ensures h in Sort(s, ByScore) <==> h in s { SortedIs(s, h); }
  }

  lemma SortedAt(s: seq<Hit>, h: Hit) returns (i: nat)
    requires h in s
    ensures i < |Sort(s, ByScore)| && Sort(s, ByScore)[i] == h
  {
    SortedIs(s, h);
    i :| i < |Sort(s, ByScore)| && Sort(s, ByScore)[i] == h;
  }

  lemma RepeatedCommutes(front: seq<Hit>, x: Hit, h: Hit)
    requires Sort(FirstPerId(front), ByScore) == FirstPerId(Sort(front, ByScore))
    requires h in front && h.id == x.id && h.score >= x.score
    ensures Sort(FirstPerId(front + [x]), ByScore) == FirstPerId(InsertLast(Sort(front, ByScore), x, ByScore))
  {
    assert FirstPerId(front + [x]) == FirstPerId(front) by {
      NamesIff(front, x.id);
      FirstPerIdSnoc(front, x);
    }
    assert FirstPerId(InsertLast(Sort(front, ByScore), x, ByScore)) == FirstPerId(Sort(front, ByScore)) by {
      var i := SortedAt(front, h);
      InsertRepeated(Sort(front, ByScore), x, i);
    }
  }

  lemma NewCommutes(front: seq<Hit>, x: Hit)
    requires Sort(FirstPerId(front), ByScore) == FirstPerId(Sort(front, ByScore)) && !Names(front, x.id)
    ensures Sort(FirstPerId(front + [x]), ByScore) == FirstPerId(InsertLast(Sort(front, ByScore), x, ByScore))
  {
    SortIsStable(front, ByScore);
    NewToSorted(front, x.id);
    InsertNew(Sort(front, ByScore), x);
    FirstPerIdSnoc(front, x);
    SortSnoc(FirstPerId(front), x);
  }

  lemma SortSnoc(s: seq<Hit>, x: Hit)
    ensures Sort(s + [x], ByScore) == InsertLast(Sort(s, ByScore), x, ByScore)
  {
    assert (s + [x])[..|s|] == s;
  }

  lemma {:induction false} BestFirstCommutes(s: seq<Hit>)
    requires FirstIsBest(s)
    ensures Sort(FirstPerId(s), ByScore) == FirstPerId(Sort(s, ByScore))
  {
    if s != [] {
      var front, x := s[..|s|-1], s[|s|-1];
      assert s == front + [x];
      FirstIsBestFront(front, x);
      BestFirstCommutes(front);
      if h :| h in front && h.id == x.id && h.score >= x.score {
        RepeatedCommutes(front, x, h);
      } else {
        NewCommutes(front, x);
      }
    }
  }

  lemma CommutingKeepsBest(s: seq<Hit>)
    requires Sort(FirstPerId(s), ByScore) == FirstPerId(Sort(s, ByScore))
    ensures BestKept(s)
  {
    var t := Sort(s, ByScore);
    SortIsStable(s, ByScore);
    DescendingKeepsBest(t);
    forall h | h in s ensures Represented(s, h) {
      SortedIs(s, h);
      assert Represented(t, h);
      var d :| d in FirstPerId(t) && d.id == h.id && d.score >= h.score;
      SortedIs(FirstPerId(s), d);
    }
  }

  /** Search deduplicates and then ranks; this agrees with ranking and then deduplicating
    * exactly when each id's first hit is already its best. */
  lemma OrdersAgreeIff(s: seq<Hit>)
    ensures Sort(FirstPerId(s), ByScore) == FirstPerId(Sort(s, ByScore)) <==> FirstIsBest(s)
  {
    if FirstIsBest(s) { BestFirstCommutes(s); }
    if Sort(FirstPerId(s), ByScore) == FirstPerId(Sort(s, ByScore)) {
      CommutingKeepsBest(s);
      DedupeKeepsBestIff(s);
    }
  }

  method DedupeHits(hits: seq<Hit>) returns (out: seq<Hit>)
    ensures out == FirstPerId(hits)
  {
    var seen: set<Id> := {};
    out := [];
    for i := 0 to |hits|
      invariant out == FirstPerId(hits[..i])
      invariant forall id :: id in seen <==> Names(hits[..i], id)
    {
      var h := hits[i];
      assert hits[..i+1][..i] == hits[..i] && hits[..i+1][i] == h;
      NamesExtend(hits[..i], h);
      assert hits[..i+1] == hits[..i] + [h];
      if h.id !in seen {
        seen := seen + {h.id};
        out := out + [h];
      }
    }
    assert hits[..|hits|] == hits;
  }

  lemma NamesExtend(s: seq<Hit>, h: Hit)
    ensures forall id :: Names(s + [h], id) <==> Names(s, id) || id == h.id
  {
    forall id ensures Names(s + [h], id) <==> Names(s, id) || id == h.id {
      if Names(s, id) {
        var i :| 0 <= i < |s| && s[i].id == id;
        assert (s + [h])[i].id == id;
      }
      assert (s + [h])[|s|].id == h.id;
    }
  }
}
