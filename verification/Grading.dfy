/** Grading hits for a recall context, and where it parts from search. */
module Grading {
  import opened Graph
  import opened Hits
  import opened Replacement
  import opened Recall
  import opened Selection
  import opened Wrappers

  /** How far an entity is trusted. */
  datatype Grade = Grade(confidence: real, status: string, level: string)

  const UNKNOWN := Grade(0.0, "unknown", "unknown")

  /** The stored grades: one per point, one per claim of a page. */
  datatype Book = Book(points: Id -> Grade, claims: Id -> seq<Grade>)

  datatype Graded = Graded(hit: Hit, title: string, grade: Grade)

  function Stronger(best: Grade, claims: seq<Grade>): Grade
    decreases |claims|
  {
    if claims == [] then best
    else Stronger(if claims[0].confidence > best.confidence then claims[0] else best, claims[1..])
  }

  /** A page is graded by its strongest claim. */
  function PageGrade(claims: seq<Grade>): Grade {
    if claims == [] then UNKNOWN else Stronger(claims[0], claims)
  }

  lemma {:induction false} StrongerIsFirstMaximum(best: Grade, claims: seq<Grade>)
    ensures var g := Stronger(best, claims);
      && g.confidence >= best.confidence
      && (forall c :: c in claims ==> g.confidence >= c.confidence)
      && (g == best || exists i :: 0 <= i < |claims| && claims[i] == g && g.confidence > best.confidence
                                   && forall j :: 0 <= j < i ==> claims[j].confidence < g.confidence)
    decreases |claims|
  {
    if claims != [] {
      var next := if claims[0].confidence > best.confidence then claims[0] else best;
      StrongerIsFirstMaximum(next, claims[1..]);
      var g := Stronger(best, claims);
      forall c | c in claims ensures g.confidence >= c.confidence {
        assert c == claims[0] || c in claims[1..];
      }
      if g != next {
        var i :| 0 <= i < |claims[1..]| && claims[1..][i] == g && g.confidence > next.confidence
                 && forall j :: 0 <= j < i ==> claims[1..][j].confidence < g.confidence;
        assert claims[i+1] == g;
        forall j | 0 <= j < i + 1 ensures claims[j].confidence < g.confidence {
          if j > 0 { assert claims[j] == claims[1..][j-1]; }
        }
      } else if g != best {
        assert claims[0] == g;
      }
    }
  }

  /** The earliest of the claims with the highest confidence. */
  ghost predicate Strongest(claims: seq<Grade>, g: Grade) {
    exists i :: 0 <= i < |claims| && claims[i] == g
      && (forall j :: 0 <= j < |claims| ==> claims[j].confidence <= g.confidence)
      && (forall j :: 0 <= j < i ==> claims[j].confidence < g.confidence)
  }

  lemma PageGradeIsStrongest(claims: seq<Grade>)
    requires claims != []
    ensures Strongest(claims, PageGrade(claims))
  {
    StrongerIsFirstMaximum(claims[0], claims);
    var g := PageGrade(claims);
    if g == claims[0] {
      assert forall j :: 0 <= j < |claims| ==> claims[j] in claims;
    } else {
      var i :| 0 <= i < |claims| && claims[i] == g && forall j :: 0 <= j < i ==> claims[j].confidence < g.confidence;
      assert forall j :: 0 <= j < |claims| ==> claims[j] in claims;
    }
  }

  // ---------------------------------------------------------------------------------

  ghost predicate Gradable(v: View, h: Hit) {
    Live(v, h) || Resolvable(v, h.id)
  }

  /** The hit grading keeps: the entity itself, or its successor if that is live. */
  ghost function Kept(v: View, h: Hit): Option<Hit>
    requires Gradable(v, h)
  {
    if Live(v, h) then Some(h)
    else match Resolve(v, h.id)
      case None => None
      case Some(s) => if Live(v, Target(s, h.score)) then Some(Target(s, h.score)) else None
  }

  function Load(v: View, book: Book, h: Hit): Graded
    requires Live(v, h)
  {
    match h.kind
    case PointHit => Graded(h, v.points[h.id].name, book.points(h.id))
    case PageHit => Graded(h, v.pages[h.id].title, PageGrade(book.claims(h.id)))
  }

  /** What becomes of one hit. */
  ghost function GradeFor(v: View, book: Book, h: Hit): Option<Graded>
    requires Gradable(v, h)
  {
    match Kept(v, h) case Some(k) => Some(Load(v, book, k)) case None => None
  }

  ghost function Grades(v: View, book: Book, hits: seq<Hit>): (r: seq<Option<Graded>>)
    requires forall h :: h in hits ==> Gradable(v, h)
    ensures |r| == |hits|
  {
    seq(|hits|, i requires 0 <= i < |hits| => GradeFor(v, book, hits[i]))
  }

  ghost function GradeAll(v: View, book: Book, hits: seq<Hit>): seq<Graded>
    requires forall h :: h in hits ==> Gradable(v, h)
  {
    Present(Grades(v, book, hits))
  }

  lemma GradeMore(v: View, book: Book, hits: seq<Hit>, h: Hit)
    requires (forall x :: x in hits ==> Gradable(v, x)) && Gradable(v, h)
    ensures GradeAll(v, book, hits + [h]) == GradeAll(v, book, hits) +
      match Kept(v, h) case Some(k) => [Load(v, book, k)] case None => []
  {
    var g := GradeFor(v, book, h);
    assert Grades(v, book, hits + [h]) == Grades(v, book, hits) + [g];
    PresentMore(Grades(v, book, hits), g);
    assert GradeAll(v, book, hits) + [] == GradeAll(v, book, hits);
  }

  method LoadEntity(v: View, book: Book, h: Hit) returns (g: Option<Graded>)
    ensures g == if Live(v, h) then Some(Load(v, book, h)) else None
  {
    if h.kind == PointHit {
      if h.id !in v.points || v.points[h.id].status == ARCHIVED { return None; }
      return Some(Graded(h, v.points[h.id].name, book.points(h.id)));
    }
    if h.id !in v.pages { return None; }
    var pg := v.pages[h.id];
    if pg.status != "" && pg.status != ACTIVE { return None; }
    var claims := book.claims(h.id);
    if |claims| == 0 {
      return Some(Graded(h, pg.title, UNKNOWN));
    }
    var best := claims[0];
    assert claims[0..] == claims;
    for i := 0 to |claims|
      invariant Stronger(best, claims[i..]) == PageGrade(claims)
    {
      assert claims[i..][1..] == claims[i+1..];
      if claims[i].confidence > best.confidence { best := claims[i]; }
    }
    g := Some(Graded(h, pg.title, best));
  }

  /** Every graded hit is live, and hits keep their order. */
  method GradeForRecall(v: View, book: Book, hits: seq<Hit>) returns (out: seq<Graded>)
    requires forall h :: h in hits ==> Gradable(v, h)
    ensures out == GradeAll(v, book, hits)
  {
    out := [];
    for i := 0 to |hits|
      invariant out == GradeAll(v, book, hits[..i])
    {
      var h := hits[i];
      assert h in hits;
      assert hits[..i+1] == hits[..i] + [h];
      GradeMore(v, book, hits[..i], h);
      var g := LoadEntity(v, book, h);
      if g.None? {
        var rep := ResolveReplacement(v, h.id);
        if rep.None? { continue; }
        var sub := if rep.value.page.Some? then Hit(PageHit, rep.value.page.value.id, h.score)
                   else Hit(PointHit, rep.value.point, h.score);
        g := LoadEntity(v, book, sub);
        if g.None? { continue; }
      }
      out := out + [g.value];
    }
    assert hits[..|hits|] == hits;
  }

  /** Grading comes back on every stored hit that search answers. */
  lemma AnsweredIsGradable(v: View, h: Hit)
    requires Stored(v, h) && Answers(v, h)
    ensures Gradable(v, h)
  {
    assert AnswersIn(v, h, Depth(v, h));
  }

  lemma AnsweredSeesOneStep(v: View, h: Hit)
    requires Filed(v) && Stored(v, h) && Gradable(v, h) && Answers(v, h)
    ensures Kept(v, h).Some? <==> ResultFor(v, h).Some? && Depth(v, h) <= 1
    ensures Kept(v, h).Some? ==> Shown(v, Kept(v, h).value) == ResultFor(v, h)
  {
    assert AnswersIn(v, h, Depth(v, h));
    if Live(v, h) {
      ResultOfLive(v, h);
    } else if Redirects(v, h) {
      var next := Redirect(v, h);
      ResultOfRedirected(v, h);
      RedirectIsStored(v, h);
      if Live(v, next) {
        ResultOfLive(v, next);
      }
    }
  }

  /** Search answers whatever grading keeps. */
  lemma KeptIsAnswered(v: View, h: Hit)
    requires Stored(v, h) && Gradable(v, h) && Kept(v, h).Some?
    ensures Answers(v, h)
  {
    if Live(v, h) {
      ResultOfLive(v, h);
    } else {
      assert Redirects(v, h) && Live(v, Redirect(v, h));
      assert AnswersIn(v, Redirect(v, h), 0);
      assert AnswersIn(v, h, 1);
    }
  }

  /** Grading follows one replacement: of the stored hits it comes back on it keeps exactly
    * those that search answers with an entity at most one replacement away, and keeps them as
    * that entity. */
  lemma GradingSeesOneStep(v: View, h: Hit)
    requires Filed(v) && Stored(v, h) && Gradable(v, h)
    ensures Kept(v, h).Some? <==> Answers(v, h) && ResultFor(v, h).Some? && Depth(v, h) <= 1
    ensures Kept(v, h).Some? ==> Shown(v, Kept(v, h).value) == ResultFor(v, h)
  {
    if Kept(v, h).Some? { KeptIsAnswered(v, h); }
    if Answers(v, h) { AnsweredSeesOneStep(v, h); }
  }

  /** A hit on an entity that is gone is never shown by search. */
  lemma GoneIsNotShown(v: View, h: Hit)
    requires !Stored(v, h)
    ensures Answers(v, h) && ResultFor(v, h) == None
  {
    assert AnswersIn(v, h, 0);
    AnswersInUnique(v, h, 0, Depth(v, h));
  }

  /** The stored grade of a live entity: a point's own, a page's strongest, and unknown for a
    * page without claims. */
  ghost predicate GradedAs(v: View, book: Book, g: Graded, k: Hit) {
    && g.hit == k
    && match k.kind
       case PointHit => LivePoint(v, k.id) && g.title == v.points[k.id].name && g.grade == book.points(k.id)
       case PageHit => LivePage(v, k.id) && g.title == v.pages[k.id].title && GradeOf(book.claims(k.id), g.grade)
  }

  ghost predicate GradeOf(claims: seq<Grade>, g: Grade) {
    if claims == [] then g == Grade(0.0, "unknown", "unknown") else Strongest(claims, g)
  }

  /** A hit is graded as the hit kept for it, and not at all when none is. */
  lemma GradeForIs(v: View, book: Book, h: Hit)
    requires Gradable(v, h)
    ensures GradeFor(v, book, h).Some? <==> Kept(v, h).Some?
    ensures Kept(v, h).Some? ==> GradedAs(v, book, GradeFor(v, book, h).value, Kept(v, h).value)
  {
    if Kept(v, h).Some? {
      var k := Kept(v, h).value;
      if k.kind == PageHit && book.claims(k.id) != [] { PageGradeIsStrongest(book.claims(k.id)); }
    }
  }

  /** What comes out is what becomes of each hit in turn, hits without a grade left out; all of
    * it is live. */
  lemma {:induction false} GradedAreLive(v: View, book: Book, hits: seq<Hit>)
    requires forall h :: h in hits ==> Gradable(v, h)
    ensures Somes(Grades(v, book, hits), GradeAll(v, book, hits))
    ensures forall g :: g in GradeAll(v, book, hits) ==> Live(v, g.hit) && GradedAs(v, book, g, g.hit)
    ensures |GradeAll(v, book, hits)| <= |hits|
  {
    var gs, out := Grades(v, book, hits), GradeAll(v, book, hits);
    PresentIs(gs);
    SomesFit(gs, out);
    forall g | g in out ensures Live(v, g.hit) && GradedAs(v, book, g, g.hit) {
      var i := SomeAt(gs, out, g);
      GradeForIs(v, book, hits[i]);
    }
  }

  // ---------------------------------------------------------------------------------
  // Stores on which the readers part, or one of them does not come back

  /** The edges of `e` out of an id, and those into it. */
  function LinksOf(e: seq<Edge>): Links {
    Links(id => From(e, id), id => Into(e, id))
  }

  function From(e: seq<Edge>, id: Id): seq<Edge> {
    if e == [] then [] else (if e[0].source == id then [e[0]] else []) + From(e[1..], id)
  }

  function Into(e: seq<Edge>, id: Id): seq<Edge> {
    if e == [] then [] else (if e[0].target == id then [e[0]] else []) + Into(e[1..], id)
  }

  lemma FromFront(x: Edge, e: seq<Edge>, id: Id)
    ensures From([x] + e, id) == (if x.source == id then [x] else []) + From(e, id)
    ensures Into([x] + e, id) == (if x.target == id then [x] else []) + Into(e, id)
  {
    assert ([x] + e)[1..] == e;
  }

  const AN := Edge("a", "n", Sequel, 1.0)
  const AP := Edge("a", "p", HasPage, 1.0)
  const BP := Edge("b", "p", HasPage, 1.0)
  const BM := Edge("b", "m", Sequel, 1.0)
  const NP := Edge("n", "p", HasPage, 1.0)
  const MQ := Edge("m", "q", HasPage, 1.0)

  /** A point "a" replaced by "n", whose page "p" is superseded: "p" leads on, by way of the
    * archived point "b" that lists it first, to the page "q". */
  function TwoSteps(): View {
    View(map["a" := Point("a", ARCHIVED, "A"), "n" := Point("n", ACTIVE, "N"),
             "b" := Point("b", ARCHIVED, "B"), "m" := Point("m", ACTIVE, "M")],
         map["p" := Page("p", "superseded", "P"), "q" := Page("q", ACTIVE, "Q")],
         LinksOf([AN] + ([BP] + ([BM] + ([NP] + ([MQ] + []))))))
  }

  /** The archived point "a" and its successor "n" share the superseded page "p". */
  function SharedPage(): View {
    View(map["a" := Point("a", ARCHIVED, "A"), "n" := Point("n", ACTIVE, "N")],
         map["p" := Page("p", "superseded", "P")],
         LinksOf([AN] + ([AP] + ([NP] + []))))
  }

  lemma SharedLinks()
    ensures var l := SharedPage().links;
      l.outs("a") == [AN, AP] && l.outs("n") == [NP] && l.ins("p") == [AP, NP]
  {
    forall id ensures From([AN] + ([AP] + ([NP] + [])), id) ==
                      (if "a" == id then [AN] else [])
                      + ((if "a" == id then [AP] else []) + (if "n" == id then [NP] else []))
      ensures Into([AN] + ([AP] + ([NP] + [])), id) ==
                      (if "n" == id then [AN] else [])
                      + ((if "p" == id then [AP] else []) + (if "p" == id then [NP] else []))
    {
      FromFront(NP, [], id);
      FromFront(AP, [NP] + [], id);
      FromFront(AN, [AP] + ([NP] + []), id);
    }
  }

  lemma SharedPageRedirects()
    ensures var v := SharedPage(); var p := Hit(PageHit, "p", 1.0);
      && Redirects(v, Hit(PointHit, "a", 1.0)) && Redirect(v, Hit(PointHit, "a", 1.0)) == p
      && Redirects(v, p) && Redirect(v, p) == p
  {
    var v := SharedPage();
    SharedLinks();
    assert [AN, AP][1..] == [AP] && [AP, NP][1..] == [NP];
    assert StartOf(v, "a") == "a" && StartOf(v, "p") == "a";
    assert Next(v, "a") == "n" && !GoesOn(v, "a");
    assert StopsAfter(v, "a", 0);
    assert FirstPage(v, v.links.outs("n")) == Some(v.pages["p"]);
    ResolveIs(v, "a", 0);
    ResolveIs(v, "p", 0);
  }

  lemma TwoStepEdges(id: Id)
    ensures TwoSteps().links.outs(id) ==
            (if "a" == id then [AN] else []) + ((if "b" == id then [BP] else []) + ((if "b" == id then [BM] else [])
              + ((if "n" == id then [NP] else []) + (if "m" == id then [MQ] else []))))
    ensures TwoSteps().links.ins(id) ==
            (if "n" == id then [AN] else []) + ((if "p" == id then [BP] else []) + ((if "m" == id then [BM] else [])
              + ((if "p" == id then [NP] else []) + (if "q" == id then [MQ] else []))))
  {
    FromFront(MQ, [], id);
    FromFront(NP, [MQ] + [], id);
    FromFront(BM, [NP] + ([MQ] + []), id);
    FromFront(BP, [BM] + ([NP] + ([MQ] + [])), id);
    FromFront(AN, [BP] + ([BM] + ([NP] + ([MQ] + []))), id);
  }

  lemma TwoStepLinks()
    ensures var l := TwoSteps().links;
      && l.outs("a") == [AN] && l.outs("n") == [NP] && l.outs("b") == [BP, BM] && l.outs("m") == [MQ]
      && l.ins("p") == [BP, NP]
  {
    TwoStepEdges("a");
    TwoStepEdges("n");
    TwoStepEdges("b");
    TwoStepEdges("m");
    TwoStepEdges("p");
  }

  lemma TwoStepRedirects()
    ensures var v := TwoSteps(); var a, p := Hit(PointHit, "a", 1.0), Hit(PageHit, "p", 1.0);
      && Redirects(v, a) && Redirect(v, a) == p && Redirects(v, p) && Redirect(v, p) == Hit(PageHit, "q", 1.0)
  {
    var v := TwoSteps();
    TwoStepLinks();
    assert FirstTarget([BP, BM], Sequel) == "m" by {
      assert [BP, BM][1..] == [BM];
      assert FirstTarget([BM], Sequel) == "m";
    }
    assert StartOf(v, "a") == "a" && StartOf(v, "p") == "b";
    assert Next(v, "a") == "n" && Next(v, "b") == "m" && !GoesOn(v, "a") && !GoesOn(v, "b");
    assert StopsAfter(v, "a", 0) && StopsAfter(v, "b", 0);
    ResolveIs(v, "a", 0);
    ResolveIs(v, "p", 0);
  }

  /** Search shows "q" for a hit on "a"; grading drops the hit. */
  lemma GradingCanDropWhatSearchShows()
    ensures var v, a := TwoSteps(), Hit(PointHit, "a", 1.0);
      && Answers(v, a) && ResultFor(v, a) == Some(Result(PageHit, "q", "Q", ACTIVE))
      && Gradable(v, a) && Kept(v, a) == None
  {
    var v, a, p, q := TwoSteps(), Hit(PointHit, "a", 1.0), Hit(PageHit, "p", 1.0), Hit(PageHit, "q", 1.0);
    TwoStepRedirects();
    assert AnswersIn(v, q, 0);
    assert AnswersIn(v, p, 1);
    assert AnswersIn(v, a, 2);
    AnswersInUnique(v, a, 2, Depth(v, a));
    assert NthHit(v, p, 1) == q;
    assert NthHit(v, a, 2) == q;
  }

  lemma {:induction false} SelfRedirectGoesOn(v: View, h: Hit, n: nat)
    requires Redirects(v, h) && Redirect(v, h) == h
    ensures !AnswersIn(v, h, n)
    decreases n
  {
    if n > 0 { SelfRedirectGoesOn(v, h, n - 1); }
  }

  /** Search never comes back from "a" when its successor's superseded page leads back to "a";
    * grading does. */
  lemma SharedPageIsNeverAnswered()
    ensures !Answers(SharedPage(), Hit(PointHit, "a", 1.0)) && Gradable(SharedPage(), Hit(PointHit, "a", 1.0))
  {
    var v, a, p := SharedPage(), Hit(PointHit, "a", 1.0), Hit(PageHit, "p", 1.0);
    SharedPageRedirects();
    if n: nat :| AnswersIn(v, a, n) {
      SelfRedirectGoesOn(v, p, if n > 0 then n - 1 else 0);
    }
  }
}
