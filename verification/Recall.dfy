/** What a reader is shown for a hit: the entity itself while it is live, the live end of its
  * replacement chain once it is archived or superseded, or nothing.
  *
  * Search follows replacements to the end; grading follows one and looks again.
  * `Grading.GradingSeesOneStep` says which hits grading keeps and that search shows the same.
  */
module Recall {
  import opened Graph
  import opened Hits
  import opened Replacement
  import opened Selection
  import opened StableOrder
  import opened Wrappers

  datatype Result = Result(kind: HitKind, id: Id, title: string, status: string)

  predicate Stored(v: View, h: Hit) {
    match h.kind
    case PointHit => h.id in v.points
    case PageHit => h.id in v.pages
  }

  predicate Live(v: View, h: Hit) {
    match h.kind
    case PointHit => LivePoint(v, h.id)
    case PageHit => LivePage(v, h.id)
  }

  predicate Stale(v: View, h: Hit) {
    Stored(v, h) && !Live(v, h)
  }

  /** The entity of a live hit as a result; nothing for any other hit. */
  function Shown(v: View, h: Hit): Option<Result> {
    if !Live(v, h) then None
    else match h.kind
      case PointHit => Some(Result(PointHit, v.points[h.id].id, v.points[h.id].name, v.points[h.id].status))
      case PageHit => Some(Result(PageHit, v.pages[h.id].id, v.pages[h.id].title, v.pages[h.id].status))
  }

  /** The successor's page when it has one, else the successor point; the score is kept. */
  function Target(s: Successor, score: real): Hit {
    match s.page
    case Some(p) => Hit(PageHit, p.id, score)
    case None => Hit(PointHit, s.point, score)
  }

  // ---------------------------------------------------------------------------------
  // Following replacements

  ghost predicate Redirects(v: View, h: Hit) {
    Stale(v, h) && Resolvable(v, h.id) && Resolve(v, h.id).Some?
  }

  ghost function Redirect(v: View, h: Hit): Hit
    requires Redirects(v, h)
  {
    Target(Resolve(v, h.id).value, h.score)
  }

  /** The walk to a stale hit's successor never ends. */
  ghost predicate Hangs(v: View, h: Hit) {
    Stale(v, h) && !Resolvable(v, h.id)
  }

  /** An answer is reached after exactly `n` substitutions. */
  ghost predicate AnswersIn(v: View, h: Hit, n: nat)
    decreases n
  {
    if n == 0 then !Redirects(v, h) && !Hangs(v, h)
    else Redirects(v, h) && AnswersIn(v, Redirect(v, h), n - 1)
  }

  ghost predicate Answers(v: View, h: Hit) {
    exists n: nat :: AnswersIn(v, h, n)
  }

  ghost function NthHit(v: View, h: Hit, n: nat): Hit
    decreases n
  {
    if n == 0 || !Redirects(v, h) then h else NthHit(v, Redirect(v, h), n - 1)
  }

  /** How many substitutions an answer takes. */
  ghost function Depth(v: View, h: Hit): (n: nat)
    requires Answers(v, h)
    ensures AnswersIn(v, h, n)
  {
    var n: nat :| AnswersIn(v, h, n); n
  }

  /** What is shown for a hit: the live end of its chain of replacements. */
  ghost function ResultFor(v: View, h: Hit): Option<Result>
    requires Answers(v, h)
  {
    Shown(v, NthHit(v, h, Depth(v, h)))
  }

  lemma {:induction false} AnswersInUnique(v: View, h: Hit, n: nat, m: nat)
    requires AnswersIn(v, h, n) && AnswersIn(v, h, m)
    ensures n == m
    decreases n
  {
    if n > 0 && m > 0 { AnswersInUnique(v, Redirect(v, h), n - 1, m - 1); }
  }

  lemma {:induction false} AnswersFromNth(v: View, h: Hit, n: nat, i: nat)
    requires AnswersIn(v, h, n) && i <= n
    ensures AnswersIn(v, NthHit(v, h, i), n - i)
    decreases i
  {
    if i > 0 { AnswersFromNth(v, Redirect(v, h), n - 1, i - 1); }
  }

  /** A substitute is the first stored page of a live successor, else the successor itself, with
    * the score of the hit. */
  lemma RedirectIs(v: View, h: Hit) returns (x: Id)
    requires Redirects(v, h)
    ensures ReplacedBy(v, h.id, x)
    ensures Redirect(v, h).score == h.score
    ensures Redirect(v, h).kind == PointHit ==> Redirect(v, h).id == x && IsFirstPage(v, v.links.outs(x), None)
    ensures Redirect(v, h).kind == PageHit ==>
      exists p :: IsFirstPage(v, v.links.outs(x), Some(p)) && Redirect(v, h).id == p.id
  {
    x := Resolve(v, h.id).value.point;
    SuccessorIffChain(v, h.id, x);
    var page := Resolve(v, h.id).value.page;
    if page.Some? { assert IsFirstPage(v, v.links.outs(x), Some(page.value)); }
  }

  /** A substitute is stored: it is live, or it is a page that is stale in its turn. */
  lemma RedirectIsStored(v: View, h: Hit)
    requires Filed(v) && Redirects(v, h)
    ensures Stored(v, Redirect(v, h))
    ensures Live(v, Redirect(v, h)) || Redirect(v, h).kind == PageHit
  {
    var s := Resolve(v, h.id).value;
    if s.page.Some? { FirstPageIsStored(v, v.links.outs(s.point)); }
    assert LivePoint(v, s.point);
  }

  function StalePages(v: View): set<Id> {
    set id | id in v.pages && !LivePage(v, id)
  }

  lemma {:induction false} NthIsRedirected(v: View, h: Hit, n: nat, i: nat)
    requires Filed(v) && AnswersIn(v, h, n) && 1 <= i < n
    ensures NthHit(v, h, i).kind == PageHit && NthHit(v, h, i).id in StalePages(v) && NthHit(v, h, i).score == h.score
    decreases i
  {
    var next := Redirect(v, h);
    RedirectIsStored(v, h);
    if i > 1 {
      NthIsRedirected(v, next, n - 1, i - 1);
    } else {
      assert NthHit(v, h, 1) == next;
      assert Redirects(v, next);
    }
  }

  lemma NthDistinct(v: View, h: Hit, n: nat, i: nat, j: nat)
    requires Filed(v) && AnswersIn(v, h, n) && 1 <= i < j < n
    ensures NthHit(v, h, i).id != NthHit(v, h, j).id
  {
    NthIsRedirected(v, h, n, i);
    NthIsRedirected(v, h, n, j);
    if NthHit(v, h, i).id == NthHit(v, h, j).id {
      AnswersFromNth(v, h, n, i);
      AnswersFromNth(v, h, n, j);
      AnswersInUnique(v, NthHit(v, h, i), n - i, n - j);
    }
  }

  /** A chain of replacements that ends passes each stale page at most once. */
  lemma DepthWithinPages(v: View, h: Hit, n: nat)
    requires Filed(v) && AnswersIn(v, h, n)
    ensures n <= |StalePages(v)| + 1
  {
    if n > 1 {
      var s: seq<Id> := [];
      for k := 1 to n
        invariant |s| == k - 1
        invariant forall i :: 0 <= i < |s| ==> s[i] == NthHit(v, h, i + 1).id && s[i] in StalePages(v)
        invariant forall i, j :: 0 <= i < j < |s| ==> s[i] != s[j]
      {
        NthIsRedirected(v, h, n, k);
        forall i | 0 <= i < |s| ensures s[i] != NthHit(v, h, k).id { NthDistinct(v, h, n, i + 1, k); }
        s := s + [NthHit(v, h, k).id];
      }
      DistinctWithin(s, StalePages(v));
    }
  }

  /** Hit `k` of the chain is one that gets an answer at once. */
  ghost predicate Rests(v: View, h: Hit) {
    !Redirects(v, h) && !Hangs(v, h)
  }

  lemma {:induction false} NeverRests(v: View, h: Hit, k: nat)
    requires !Answers(v, h)
    ensures !Rests(v, NthHit(v, h, k))
    decreases k
  {
    assert AnswersIn(v, h, 0) <==> Rests(v, h);
    if k > 0 && Redirects(v, h) {
      if n: nat :| AnswersIn(v, Redirect(v, h), n) { assert AnswersIn(v, h, n + 1); }
      NeverRests(v, Redirect(v, h), k - 1);
    }
  }

  lemma {:induction false} NthHitStep(v: View, h: Hit, n: nat)
    requires Redirects(v, NthHit(v, h, n))
    ensures NthHit(v, h, n + 1) == Redirect(v, NthHit(v, h, n))
    decreases n
  {
    if n > 0 && Redirects(v, h) { NthHitStep(v, Redirect(v, h), n - 1); }
  }

  lemma {:induction false} RestsFor(v: View, h: Hit, n: nat, k: nat)
    requires AnswersIn(v, h, n) && n <= k
    ensures Rests(v, NthHit(v, h, k))
    decreases n
  {
    if n > 0 { RestsFor(v, Redirect(v, h), n - 1, k - 1); }
  }

  /** The substitution comes back to a hit it has replaced. */
  ghost predicate Circles(v: View, h: Hit) {
    exists i: nat, j: nat :: i < j && NthHit(v, h, i) == NthHit(v, h, j) && Redirects(v, NthHit(v, h, j))
  }

  /** The substitution reaches a stale hit whose own walk to a successor runs in a cycle. */
  ghost predicate ReachesLoop(v: View, h: Hit) {
    exists k: nat :: Stale(v, NthHit(v, h, k)) && Loops(v, StartOf(v, NthHit(v, h, k).id))
  }

  lemma {:induction false} NthKeepsScore(v: View, h: Hit, n: nat)
    ensures NthHit(v, h, n).score == h.score
    decreases n
  {
    if n > 0 && Redirects(v, h) { NthKeepsScore(v, Redirect(v, h), n - 1); }
  }

  /** The `k`-th substitute is the stale page `id`, and is replaced in its turn. */
  ghost predicate StaleSubstitute(v: View, h: Hit, id: Id, k: nat) {
    id in StalePages(v) && NthHit(v, h, k) == Hit(PageHit, id, h.score) && Redirects(v, NthHit(v, h, k))
  }

  lemma SubstituteIsStalePage(v: View, h: Hit, k: nat)
    requires Filed(v) && k > 0 && Redirects(v, NthHit(v, h, k - 1)) && Redirects(v, NthHit(v, h, k))
    ensures StaleSubstitute(v, h, NthHit(v, h, k).id, k)
  {
    NthHitStep(v, h, k - 1);
    RedirectIsStored(v, NthHit(v, h, k - 1));
    NthKeepsScore(v, h, k);
  }

  /** `ids` are the ids of the first substitutes, all of them stale pages. */
  ghost predicate StaleSubstitutes(v: View, h: Hit, ids: seq<Id>) {
    forall i :: 0 <= i < |ids| ==> StaleSubstitute(v, h, ids[i], i + 1)
  }

  lemma RepeatCircles(v: View, h: Hit, ids: seq<Id>)
    requires StaleSubstitutes(v, h, ids) && |ids| > |StalePages(v)|
    ensures Circles(v, h)
  {
    forall i | 0 <= i < |ids| ensures ids[i] in StalePages(v) { assert StaleSubstitute(v, h, ids[i], i + 1); }
    if forall i, j :: 0 <= i < j < |ids| ==> ids[i] != ids[j] { DistinctWithin(ids, StalePages(v)); }
    var i, j :| 0 <= i < j < |ids| && ids[i] == ids[j];
    assert StaleSubstitute(v, h, ids[i], i + 1) && StaleSubstitute(v, h, ids[j], j + 1);
    assert NthHit(v, h, i + 1) == NthHit(v, h, j + 1);
  }

  lemma {:induction false} FirstSubstitutes(v: View, h: Hit, n: nat) returns (ids: seq<Id>)
    requires Filed(v) && forall k: nat :: Redirects(v, NthHit(v, h, k))
    ensures |ids| == n && StaleSubstitutes(v, h, ids)
    decreases n
  {
    if n == 0 {
      ids := [];
    } else {
      ids := FirstSubstitutes(v, h, n - 1);
      SubstituteIsStalePage(v, h, n);
      ids := ids + [NthHit(v, h, n).id];
    }
  }

  lemma EndlessCircles(v: View, h: Hit)
    requires Filed(v) && forall k: nat :: Redirects(v, NthHit(v, h, k))
    ensures Circles(v, h)
  {
    var ids := FirstSubstitutes(v, h, |StalePages(v)| + 1);
    RepeatCircles(v, h, ids);
  }

  lemma CirclingIsEndless(v: View, h: Hit, n: nat, i: nat, j: nat)
    requires i < j && NthHit(v, h, i) == NthHit(v, h, j) && Redirects(v, NthHit(v, h, j))
    ensures !AnswersIn(v, h, n)
  {
    if AnswersIn(v, h, n) {
      if n <= j {
        RestsFor(v, h, n, j);
      } else {
        AnswersFromNth(v, h, n, i);
        AnswersFromNth(v, h, n, j);
        AnswersInUnique(v, NthHit(v, h, i), n - i, n - j);
      }
    }
  }

  lemma HangingIsEndless(v: View, h: Hit, n: nat, k: nat)
    requires Hangs(v, NthHit(v, h, k))
    ensures !AnswersIn(v, h, n)
  {
    if AnswersIn(v, h, n) {
      if n <= k { RestsFor(v, h, n, k); } else { AnswersFromNth(v, h, n, k); }
    }
  }

  lemma HangsIff(v: View, h: Hit)
    ensures Hangs(v, h) <==> Stale(v, h) && Loops(v, StartOf(v, h.id))
  {
    WalkEndsIff(v, StartOf(v, h.id));
  }

  lemma UnansweredCircles(v: View, h: Hit)
    requires Filed(v) && !Answers(v, h)
    ensures Circles(v, h) || ReachesLoop(v, h)
  {
    if k: nat :| Hangs(v, NthHit(v, h, k)) {
      HangsIff(v, NthHit(v, h, k));
    } else {
      forall k: nat ensures Redirects(v, NthHit(v, h, k)) { NeverRests(v, h, k); }
      EndlessCircles(v, h);
    }
  }

  lemma AnsweredRests(v: View, h: Hit)
    requires Filed(v) && Answers(v, h)
    ensures !Circles(v, h) && !ReachesLoop(v, h)
    ensures exists k: nat :: k <= |StalePages(v)| + 1 && Rests(v, NthHit(v, h, k))
  {
    var n: nat :| AnswersIn(v, h, n);
    DepthWithinPages(v, h, n);
    RestsFor(v, h, n, n);
    if i: nat, j: nat :| i < j && NthHit(v, h, i) == NthHit(v, h, j) && Redirects(v, NthHit(v, h, j)) {
      CirclingIsEndless(v, h, n, i, j);
    }
    if k: nat :| Stale(v, NthHit(v, h, k)) && Loops(v, StartOf(v, NthHit(v, h, k).id)) {
      HangsIff(v, NthHit(v, h, k));
      HangingIsEndless(v, h, n, k);
    }
  }

  /** A hit is answered exactly when neither its chain of replacements nor a walk to one of
    * their successors runs in a cycle, and then within one more substitution than there are
    * stale pages. */
  lemma AnswersIff(v: View, h: Hit)
    requires Filed(v)
    ensures Answers(v, h) <==> !Circles(v, h) && !ReachesLoop(v, h)
    ensures Answers(v, h) <==> exists k: nat :: k <= |StalePages(v)| + 1 && Rests(v, NthHit(v, h, k))
  {
    if Answers(v, h) {
      AnsweredRests(v, h);
    } else {
      UnansweredCircles(v, h);
      forall k: nat ensures !Rests(v, NthHit(v, h, k)) { NeverRests(v, h, k); }
    }
  }

  // ---------------------------------------------------------------------------------
  // Search

  /** The result tells the id, title and status of a live entity. */
  predicate IsLiveResult(v: View, r: Result) {
    match r.kind
    case PointHit =>
      && r.id in v.points && r.title == v.points[r.id].name && r.status == v.points[r.id].status
      && r.status != "archived"
    case PageHit =>
      && r.id in v.pages && r.title == v.pages[r.id].title && r.status == v.pages[r.id].status
      && (r.status == "" || r.status == "active")
  }

  /** Only live entities are shown. */
  lemma ResultIsLive(v: View, h: Hit)
    requires Filed(v) && Answers(v, h) && ResultFor(v, h).Some?
    ensures IsLiveResult(v, ResultFor(v, h).value)
  {
    var end := NthHit(v, h, Depth(v, h));
    assert Live(v, end) && Shown(v, end) == ResultFor(v, h);
  }

  lemma ResultOfLive(v: View, h: Hit)
    requires Live(v, h)
    ensures Answers(v, h) && Depth(v, h) == 0 && ResultFor(v, h) == Shown(v, h)
  {
    assert AnswersIn(v, h, 0);
    AnswersInUnique(v, h, 0, Depth(v, h));
  }

  /** A hit on a live entity shows that entity. */
  lemma LiveShowsItself(v: View, h: Hit)
    requires Filed(v)
    requires match h.kind
             case PointHit => h.id in v.points && v.points[h.id].status != "archived"
             case PageHit => h.id in v.pages && v.pages[h.id].status in {"", "active"}
    ensures Answers(v, h) && ResultFor(v, h).Some?
    ensures var r := ResultFor(v, h).value; r.kind == h.kind && r.id == h.id && IsLiveResult(v, r)
  {
    ResultOfLive(v, h);
    ResultIsLive(v, h);
  }

  lemma ResultOfRedirected(v: View, h: Hit)
    requires Redirects(v, h) && Answers(v, h)
    ensures Answers(v, Redirect(v, h)) && Depth(v, h) == Depth(v, Redirect(v, h)) + 1
    ensures ResultFor(v, h) == ResultFor(v, Redirect(v, h))
  {
    var n := Depth(v, h);
    assert n > 0 && AnswersIn(v, Redirect(v, h), n - 1);
    AnswersInUnique(v, Redirect(v, h), n - 1, Depth(v, Redirect(v, h)));
  }

  method AnswerHit(v: View, h: Hit) returns (r: Option<Result>)
    requires Answers(v, h)
    ensures r == ResultFor(v, h)
    decreases Depth(v, h)
  {
    assert AnswersIn(v, h, Depth(v, h));
    if h.kind == PointHit {
      if h.id !in v.points { return None; }
      if v.points[h.id].status != ARCHIVED {
        ResultOfLive(v, h);
        return Shown(v, h);
      }
    } else {
      if h.id !in v.pages { return None; }
      if v.pages[h.id].status == "" || v.pages[h.id].status == ACTIVE {
        ResultOfLive(v, h);
        return Shown(v, h);
      }
    }
    var rep := ResolveReplacement(v, h.id);
    if rep.None? { return None; }
    ResultOfRedirected(v, h);
    if rep.value.page.Some? {
      r := AnswerHit(v, Hit(PageHit, rep.value.page.value.id, h.score));
    } else {
      r := AnswerHit(v, Hit(PointHit, rep.value.point, h.score));
    }
  }

  /** What each hit shows. */
  ghost function Results(v: View, hits: seq<Hit>): (r: seq<Option<Result>>)
    requires forall h :: h in hits ==> Answers(v, h)
    ensures |r| == |hits| && forall i :: 0 <= i < |hits| ==> r[i] == ResultFor(v, hits[i])
  {
    seq(|hits|, i requires 0 <= i < |hits| => ResultFor(v, hits[i]))
  }

  /** What is shown for each hit in turn, hits with nothing to show left out. */
  ghost function Shows(v: View, hits: seq<Hit>): seq<Result>
    requires forall h :: h in hits ==> Answers(v, h)
  {
    Present(Results(v, hits))
  }

  lemma ShowsMore(v: View, hits: seq<Hit>, h: Hit)
    requires (forall x :: x in hits ==> Answers(v, x)) && Answers(v, h)
    ensures Shows(v, hits + [h]) ==
      if ResultFor(v, h).Some? then Shows(v, hits) + [ResultFor(v, h).value] else Shows(v, hits)
  {
    assert Results(v, hits + [h]) == Results(v, hits) + [ResultFor(v, h)];
    PresentMore(Results(v, hits), ResultFor(v, h));
  }

  lemma ShowsLive(v: View, hits: seq<Hit>)
    requires Filed(v) && forall h :: h in hits ==> Answers(v, h)
    ensures Somes(Results(v, hits), Shows(v, hits)) && |Shows(v, hits)| <= |hits|
    ensures forall r :: r in Shows(v, hits) ==> IsLiveResult(v, r)
  {
    var rs, out := Results(v, hits), Shows(v, hits);
    PresentIs(rs);
    SomesFit(rs, out);
    forall r | r in out ensures IsLiveResult(v, r) {
      var i := SomeAt(rs, out, r);
      ResultIsLive(v, hits[i]);
    }
  }

  const DEFAULT_TOP := 3

  function Top(topK: int): (n: nat)
    ensures n == if topK > 0 then topK else 3
  {
    if topK <= 0 then DEFAULT_TOP else topK
  }

  function Ranked(found: seq<Hit>, topK: int): seq<Hit> {
    var s := Sort(FirstPerId(found), ByScore);
    if |s| > Top(topK) then s[..Top(topK)] else s
  }

  ghost predicate DistinctIds(s: seq<Hit>) {
    forall i, j :: 0 <= i < j < |s| ==> s[i].id != s[j].id
  }

  ghost function IdsFound(found: seq<Hit>): set<Id> {
    set i | 0 <= i < |found| :: found[i].id
  }

  /** The hits shown: in descending score, one per id, as many as there are ids or as asked for,
    * and no hit left out scores above one kept. */
  ghost predicate BestOf(found: seq<Hit>, most: nat, top: seq<Hit>) {
    && Descending(top, ByScore)
    && DistinctIds(top)
    && (forall h :: h in top ==> IsFirst(found, h))
    && |top| == (if |IdsFound(found)| < most then |IdsFound(found)| else most)
    && (forall h, k :: IsFirst(found, h) && h !in top && k in top ==> h.score <= k.score)
    && (exists t :: StablySorted(FirstPerId(found), t, ByScore) && top <= t)
  }

  lemma {:induction false} SortedKeepsIds(s: seq<Hit>)
    requires DistinctIds(s)
    ensures DistinctIds(Sort(s, ByScore))
  {
    if s != [] {
      var front, x := s[..|s|-1], s[|s|-1];
      SortedKeepsIds(front);
      NewToSorted(front, x.id);
      InsertedIdsDiffer(Sort(front, ByScore), x);
    }
  }

  lemma {:induction false} InsertedIdsDiffer(t: seq<Hit>, x: Hit)
    requires !Names(t, x.id) && DistinctIds(t)
    ensures DistinctIds(InsertLast(t, x, ByScore))
  {
    if |t| != 0 && ByScore(t[|t|-1]) < ByScore(x) {
      var front, z := t[..|t|-1], t[|t|-1];
      assert forall i :: 0 <= i < |front| ==> front[i] == t[i];
      InsertedIdsDiffer(front, x);
      InsertedNames(front, x, z.id);
    }
  }

  lemma {:induction false} DistinctIdsCount(s: seq<Hit>)
    requires DistinctIds(s)
    ensures |IdsFound(s)| == |s|
  {
    if s != [] {
      var front, x := s[..|s|-1], s[|s|-1];
      DistinctIdsCount(front);
      assert IdsFound(s) == IdsFound(front) + {x.id};
      assert x.id !in IdsFound(front);
    }
  }

  lemma FirstsNameAll(found: seq<Hit>)
    ensures IdsFound(FirstPerId(found)) == IdsFound(found)
  {
    var f := FirstPerId(found);
    FirstPerIdIs(found);
    forall id | id in IdsFound(found) ensures id in IdsFound(f) {
      var j: nat :| j < |found| && found[j].id == id;
      var k := FirstOn(found, j);
      var m :| 0 <= m < |f| && f[m] == found[k];
    }
    forall id | id in IdsFound(f) ensures id in IdsFound(found) {
      var m :| 0 <= m < |f| && f[m].id == id;
      assert f[m] in f && IsFirst(found, f[m]);
    }
  }

  lemma SortedFirsts(found: seq<Hit>)
    ensures var s := Sort(FirstPerId(found), ByScore);
      && StablySorted(FirstPerId(found), s, ByScore) && DistinctIds(s) && |s| == |IdsFound(found)|
      && forall h :: h in s <==> IsFirst(found, h)
  {
    var f := FirstPerId(found);
    FirstPerIdIs(found);
    SortIsStable(f, ByScore);
    SortedKeepsIds(f);
    DistinctIdsCount(f);
    FirstsNameAll(found);
    forall h ensures h in Sort(f, ByScore) <==> IsFirst(found, h) { SortedIs(f, h); }
  }

  lemma LeftOutIsNoBetter(s: seq<Hit>, top: seq<Hit>, h: Hit, k: Hit)
    requires Descending(s, ByScore) && top <= s && h in s && h !in top && k in top
    ensures h.score <= k.score
  {
    var i :| 0 <= i < |s| && s[i] == h;
    var j :| 0 <= j < |top| && top[j] == k;
    assert forall m :: 0 <= m < |top| ==> top[m] in top && top[m] == s[m];
    assert ByScore(s[j]) >= ByScore(s[i]);
  }

  lemma RankedIsBest(found: seq<Hit>, topK: int)
    ensures BestOf(found, Top(topK), Ranked(found, topK))
  {
    var s, top := Sort(FirstPerId(found), ByScore), Ranked(found, topK);
    SortedFirsts(found);
    assert top <= s && forall i :: 0 <= i < |top| ==> top[i] == s[i];
    forall h, k | IsFirst(found, h) && h !in top && k in top ensures h.score <= k.score {
      LeftOutIsNoBetter(s, top, h, k);
    }
  }

  lemma RankedAreFound(found: seq<Hit>, topK: int)
    ensures forall h :: h in Ranked(found, topK) ==> h in found
  {
    FirstPerIdIs(found);
    forall h | h in Ranked(found, topK) ensures h in found {
      assert h in Sort(FirstPerId(found), ByScore);
      SortedIs(FirstPerId(found), h);
      assert IsFirst(found, h);
    }
  }

  method ShowAll(v: View, hits: seq<Hit>) returns (out: seq<Result>)
    requires forall h :: h in hits ==> Answers(v, h)
    ensures out == Shows(v, hits)
  {
    out := [];
    for i := 0 to |hits|
      invariant out == Shows(v, hits[..i])
    {
      assert hits[..i+1] == hits[..i] + [hits[i]] && hits[i] in hits;
      ShowsMore(v, hits[..i], hits[i]);
      var r := AnswerHit(v, hits[i]);
      if r.Some? {
        out := out + [r.value];
      }
    }
    assert hits[..|hits|] == hits;
  }

  /** The hits a query found in one namespace, shown: live entities only, best hits first.  Only
    * the hits that survive the cut are looked at. */
  method Search(v: View, found: seq<Hit>, topK: int) returns (out: seq<Result>)
    requires Filed(v) && forall h :: h in Ranked(found, topK) ==> Answers(v, h)
    ensures |out| <= Top(topK)
    ensures forall h :: h in Ranked(found, topK) ==> h in found
    ensures BestOf(found, Top(topK), Ranked(found, topK))
    ensures forall r :: r in out ==> IsLiveResult(v, r)
    ensures Somes(Results(v, Ranked(found, topK)), out)
    ensures out == Shows(v, Ranked(found, topK))
  {
    RankedIsBest(found, topK);
    RankedAreFound(found, topK);
    ShowsLive(v, Ranked(found, topK));
    if |found| == 0 { return []; }
    var hits := DedupeHits(found);
    hits := Sort(hits, ByScore);
    if |hits| > Top(topK) {
      hits := hits[..Top(topK)];
    }
    out := ShowAll(v, hits);
  }
}
