/** Folding candidates that name the same topic.
  *
  * The same fold runs after extraction and again at the start of merging.  Topics are compared
  * after `norm`, which evens out case and white space.
  */
module Dedupe {
  import opened Selection
  import opened Wrappers

  datatype Candidate = Candidate(topic: string, reason: string, confidence: real, tags: seq<string>,
                                 start: int, end: int, subjective: bool, wikiWorthy: Option<bool>)

  type Norm = string -> string

  function Key(c: Candidate, norm: Norm): string {
    norm(c.topic)
  }

  /** `tags` with the first `n` of `more` that are not there yet. */
  function AddTags(tags: seq<string>, more: seq<string>, n: nat): seq<string>
    requires n <= |more|
    decreases n
  {
    if n == 0 then tags
    else
      var t := AddTags(tags, more, n - 1);
      if more[n-1] in t then t else t + [more[n-1]]
  }

  /** Candidate `m` after `c` on the same topic is folded in. */
  function Absorb(m: Candidate, c: Candidate): Candidate {
    var best := if c.confidence > m.confidence
      then m.(topic := c.topic, reason := c.reason, subjective := c.subjective, confidence := c.confidence) else m;
    best.(start := if c.start > 0 && (m.start == 0 || c.start < m.start) then c.start else m.start,
          end := if c.end > m.end then c.end else m.end,
          wikiWorthy := if m.wikiWorthy.None? then c.wikiWorthy else m.wikiWorthy,
          tags := AddTags(m.tags, c.tags, |c.tags|))
  }

  /** The first place among the first `n` whose topic has key `k`, or `n`. */
  function Place(out: seq<Candidate>, k: string, n: nat, norm: Norm): (i: nat)
    requires n <= |out|
    ensures i <= n && (i < n ==> Key(out[i], norm) == k) && forall j :: 0 <= j < i ==> Key(out[j], norm) != k
    decreases n
  {
    if n == 0 then 0
    else
      var i := Place(out, k, n - 1, norm);
      if i < n - 1 || Key(out[n-1], norm) == k then i else n
  }

  function Add(out: seq<Candidate>, c: Candidate, norm: Norm): seq<Candidate> {
    var i := Place(out, Key(c, norm), |out|, norm);
    if Key(c, norm) == [] || i == |out| then out + [c] else out[i := Absorb(out[i], c)]
  }

  function Adding(norm: Norm): (seq<Candidate>, Candidate) -> seq<Candidate> {
    (out: seq<Candidate>, c: Candidate) => Add(out, c, norm)
  }

  /** The first `n` candidates folded into `out`. */
  function Fold(out: seq<Candidate>, cands: seq<Candidate>, n: nat, norm: Norm): seq<Candidate>
    requires n <= |cands|
  {
    FoldLeft(Adding(norm), out, cands, n)
  }

  function Deduped(cands: seq<Candidate>, norm: Norm): seq<Candidate> {
    Fold([], cands, |cands|, norm)
  }

  method MergeTags(tags: seq<string>, more: seq<string>) returns (r: seq<string>)
    ensures r == AddTags(tags, more, |more|)
  {
    r := tags;
    for i := 0 to |more|
      invariant r == AddTags(tags, more, i)
    {
      if more[i] !in r {
        r := r + [more[i]];
      }
    }
  }

  method FindKey(out: seq<Candidate>, key: string, norm: Norm) returns (idx: int)
    ensures idx == if Place(out, key, |out|, norm) == |out| then -1 else Place(out, key, |out|, norm)
  {
    idx := -1;
    for i := 0 to |out|
      invariant idx == -1 && forall j :: 0 <= j < i ==> Key(out[j], norm) != key
    {
      if Key(out[i], norm) == key { return i; }
    }
  }

  /** Folds candidates into the first one on the same topic, in place. */
  method DedupeAll(cands: seq<Candidate>, norm: Norm) returns (out: seq<Candidate>)
    ensures out == Deduped(cands, norm)
  {
    out := [];
    for n := 0 to |cands|
      invariant out == Fold([], cands, n, norm)
    {
      var c := cands[n];
      var key := norm(c.topic);
      if key == [] {
        out := out + [c];
        continue;
      }
      var idx := FindKey(out, key, norm);
      if idx == -1 {
        out := out + [c];
        continue;
      }
      var merged := out[idx];
      if c.confidence > merged.confidence {
        merged := merged.(topic := c.topic, reason := c.reason, subjective := c.subjective, confidence := c.confidence);
      }
      if c.start > 0 && (merged.start == 0 || c.start < merged.start) {
        merged := merged.(start := c.start);
      }
      if c.end > merged.end {
        merged := merged.(end := c.end);
      }
      if merged.wikiWorthy.None? && c.wikiWorthy.Some? {
        merged := merged.(wikiWorthy := c.wikiWorthy);
      }
      var tags := MergeTags(merged.tags, c.tags);
      merged := merged.(tags := tags);
      out := out[idx := merged];
    }
  }

  // ---------------------------------------------------------------------------------
  // Topics in order of first mention

  predicate Seen(cands: seq<Candidate>, n: nat, k: string, norm: Norm)
    requires n <= |cands|
  {
    exists i :: 0 <= i < n && Key(cands[i], norm) == k
  }

  /** The keys of the first `n` candidates: each one that is not empty where it first occurs,
    * and every empty one. */
  function FirstKeys(cands: seq<Candidate>, n: nat, norm: Norm): seq<string>
    requires n <= |cands|
    decreases n
  {
    if n == 0 then []
    else
      var k := Key(cands[n-1], norm);
      FirstKeys(cands, n - 1, norm) + if k == [] || !Seen(cands, n - 1, k, norm) then [k] else []
  }

  function Keys(out: seq<Candidate>, norm: Norm): seq<string> {
    seq(|out|, i requires 0 <= i < |out| => Key(out[i], norm))
  }

  /** All candidates with key `k` among the first `n`, folded from the left. */
  function Group(cands: seq<Candidate>, k: string, n: nat, norm: Norm): Option<Candidate>
    requires n <= |cands|
    decreases n
  {
    if n == 0 then None
    else if Key(cands[n-1], norm) != k then Group(cands, k, n - 1, norm)
    else match Group(cands, k, n - 1, norm)
      case None => Some(cands[n-1])
      case Some(m) => Some(Absorb(m, cands[n-1]))
  }

  lemma {:induction false} GroupKey(cands: seq<Candidate>, k: string, n: nat, norm: Norm)
    requires n <= |cands|
    ensures Group(cands, k, n, norm).Some? <==> Seen(cands, n, k, norm)
    ensures Group(cands, k, n, norm).Some? ==> Key(Group(cands, k, n, norm).value, norm) == k
    decreases n
  {
    if n > 0 { GroupKey(cands, k, n - 1, norm); }
  }

  ghost predicate Named(c: Candidate, norm: Norm) {
    Key(c, norm) != []
  }

  function Unnamed(norm: Norm): Candidate -> bool {
    c => Key(c, norm) == []
  }

  ghost predicate OnePerKey(out: seq<Candidate>, norm: Norm) {
    forall i, j :: 0 <= i < j < |out| && Key(out[i], norm) == Key(out[j], norm) ==> Key(out[i], norm) == []
  }

  ghost predicate HoldsGroups(out: seq<Candidate>, cands: seq<Candidate>, n: nat, norm: Norm)
    requires n <= |cands|
  {
    && (forall i :: 0 <= i < |out| && Named(out[i], norm) ==> Group(cands, Key(out[i], norm), n, norm) == Some(out[i]))
    && (forall k: string :: k != [] && Seen(cands, n, k, norm) ==> k in Keys(out, norm))
  }

  /** A list is the deduplication of `cands`: one candidate per key in order of first mention,
    * each its whole group folded, and the candidates without a key as they were. */
  ghost predicate IsDedupe(out: seq<Candidate>, cands: seq<Candidate>, n: nat, norm: Norm)
    requires n <= |cands|
  {
    && Keys(out, norm) == FirstKeys(cands, n, norm)
    && HoldsGroups(out, cands, n, norm)
    && Keep(out, Unnamed(norm), 0, |out|) == Keep(cands, Unnamed(norm), 0, n)
  }

  /** A candidate either joins the one place its key has, or becomes the last. */
  lemma AddKeys(out: seq<Candidate>, c: Candidate, norm: Norm)
    ensures var k := Key(c, norm);
      Keys(Add(out, c, norm), norm) ==
        if k == [] || k !in Keys(out, norm) then Keys(out, norm) + [k] else Keys(out, norm)
  {
    var k, i := Key(c, norm), Place(out, Key(c, norm), |out|, norm);
    if i < |out| {
      assert Keys(out, norm)[i] == k;
    }
  }

  lemma NamedAreSeen(out: seq<Candidate>, cands: seq<Candidate>, n: nat, k: string, norm: Norm)
    requires n <= |cands| && k != [] && HoldsGroups(out, cands, n, norm)
    ensures k in Keys(out, norm) <==> Seen(cands, n, k, norm)
  {
    if k in Keys(out, norm) {
      var i :| 0 <= i < |out| && Keys(out, norm)[i] == k;
      assert Named(out[i], norm);
      GroupKey(cands, k, n, norm);
    }
  }

  lemma SeenGrows(cands: seq<Candidate>, n: nat, k: string, norm: Norm)
    requires 0 < n <= |cands|
    ensures Seen(cands, n, k, norm) <==> Seen(cands, n - 1, k, norm) || Key(cands[n-1], norm) == k
  {
  }

  lemma GroupsStep(out: seq<Candidate>, cands: seq<Candidate>, n: nat, norm: Norm)
    requires 0 < n <= |cands| && OnePerKey(out, norm) && HoldsGroups(out, cands, n - 1, norm)
    ensures OnePerKey(Add(out, cands[n-1], norm), norm)
    ensures HoldsGroups(Add(out, cands[n-1], norm), cands, n, norm)
  {
    var c, k := cands[n-1], Key(cands[n-1], norm);
    var i, next := Place(out, k, |out|, norm), Add(out, c, norm);
    if k != [] { NamedAreSeen(out, cands, n - 1, k, norm); }
    GroupKey(cands, k, n - 1, norm);
    AddKeys(out, c, norm);
    assert i < |out| ==> Keys(out, norm)[i] == k;
    forall j | 0 <= j < |next| && Named(next[j], norm)
      ensures Group(cands, Key(next[j], norm), n, norm) == Some(next[j])
    {
      if j < |out| && next[j] == out[j] {
        assert Named(out[j], norm);
      }
    }
    forall q: string | q != [] && Seen(cands, n, q, norm) ensures q in Keys(next, norm) {
      SeenGrows(cands, n, q, norm);
    }
  }

  lemma {:induction false} KeepSame(a: seq<Candidate>, b: seq<Candidate>, n: nat, norm: Norm)
    requires n <= |a| && n <= |b|
    requires forall i :: 0 <= i < n ==> a[i] == b[i] || (Named(a[i], norm) && Named(b[i], norm))
    ensures Keep(a, Unnamed(norm), 0, n) == Keep(b, Unnamed(norm), 0, n)
    decreases n
  {
    if n > 0 { KeepSame(a, b, n - 1, norm); }
  }

  lemma UnnamedStep(out: seq<Candidate>, c: Candidate, norm: Norm)
    ensures var next := Add(out, c, norm);
      Keep(next, Unnamed(norm), 0, |next|) ==
        Keep(out, Unnamed(norm), 0, |out|) + if Key(c, norm) == [] then [c] else []
  {
    var next := Add(out, c, norm);
    KeepSame(out, next, |out|, norm);
  }

  /** The fold, candidate by candidate, computes the deduplication. */
  lemma {:induction false} FoldIsDedupe(cands: seq<Candidate>, n: nat, norm: Norm)
    requires n <= |cands|
    ensures OnePerKey(Fold([], cands, n, norm), norm)
    ensures IsDedupe(Fold([], cands, n, norm), cands, n, norm)
    decreases n
  {
    if n == 0 {
      assert Keys([], norm) == [];
    } else {
      FoldIsDedupe(cands, n - 1, norm);
      var out, c := Fold([], cands, n - 1, norm), cands[n-1];
      GroupsStep(out, cands, n, norm);
      UnnamedStep(out, c, norm);
      AddKeys(out, c, norm);
      if Key(c, norm) != [] { NamedAreSeen(out, cands, n - 1, Key(c, norm), norm); }
    }
  }

  // ---------------------------------------------------------------------------------
  // Folding twice

  lemma {:induction false} FoldOfDistinct(cands: seq<Candidate>, n: nat, norm: Norm)
    requires n <= |cands| && OnePerKey(cands, norm)
    ensures Fold([], cands, n, norm) == cands[..n]
    decreases n
  {
    if n > 0 {
      FoldOfDistinct(cands, n - 1, norm);
      var out := cands[..n-1];
      var i := Place(out, Key(cands[n-1], norm), |out|, norm);
      assert i < |out| ==> Key(cands[i], norm) == [];
      assert out + [cands[n-1]] == cands[..n];
    }
  }

  /** Nothing is left to fold in a folded list, so the second pass changes nothing. */
  lemma DedupeTwice(cands: seq<Candidate>, norm: Norm)
    ensures Deduped(Deduped(cands, norm), norm) == Deduped(cands, norm)
  {
    var out := Deduped(cands, norm);
    FoldIsDedupe(cands, |cands|, norm);
    FoldOfDistinct(out, |out|, norm);
    assert out[..|out|] == out;
  }

  /** A second extraction pass may be folded onto the folded first one. */
  lemma DedupeOfAppended(a: seq<Candidate>, b: seq<Candidate>, norm: Norm)
    ensures Deduped(Deduped(a, norm) + b, norm) == Deduped(a + b, norm)
  {
    DedupeTwice(a, norm);
    FoldLeftMore(Adding(norm), [], Deduped(a, norm), a, b);
  }

  // ---------------------------------------------------------------------------------
  // What a group keeps

  predicate Member(cands: seq<Candidate>, i: int, n: nat, k: string, norm: Norm)
    requires n <= |cands|
  {
    0 <= i < n && Key(cands[i], norm) == k
  }

  /** Candidate `i` is the earliest of its group's most confident. */
  ghost predicate EarliestBest(cands: seq<Candidate>, i: int, n: nat, k: string, norm: Norm)
    requires n <= |cands|
  {
    && Member(cands, i, n, k, norm)
    && (forall j :: Member(cands, j, n, k, norm) ==> cands[j].confidence <= cands[i].confidence)
    && (forall j :: Member(cands, j, n, k, norm) && j < i ==> cands[j].confidence < cands[i].confidence)
  }

  lemma EmptyGroup(cands: seq<Candidate>, k: string, n: nat, norm: Norm)
    requires n <= |cands|
    ensures Group(cands, k, n, norm).None? ==> forall j :: !Member(cands, j, n, k, norm)
  {
    GroupKey(cands, k, n, norm);
    assert forall j :: Member(cands, j, n, k, norm) ==> Seen(cands, n, k, norm);
  }

  /** A group is named after the earliest of its most confident candidates. */
  lemma {:induction false} GroupKeepsBest(cands: seq<Candidate>, k: string, n: nat, norm: Norm) returns (i: int)
    requires n <= |cands| && Group(cands, k, n, norm).Some?
    ensures EarliestBest(cands, i, n, k, norm)
    ensures var m := Group(cands, k, n, norm).value;
      && m.confidence == cands[i].confidence && m.topic == cands[i].topic
      && m.reason == cands[i].reason && m.subjective == cands[i].subjective
    decreases n
  {
    var c := cands[n-1];
    GroupKey(cands, k, n - 1, norm);
    if Key(c, norm) != k {
      i := GroupKeepsBest(cands, k, n - 1, norm);
      assert forall j :: Member(cands, j, n, k, norm) <==> Member(cands, j, n - 1, k, norm);
    } else if Group(cands, k, n - 1, norm).None? {
      i := n - 1;
      assert forall j :: Member(cands, j, n, k, norm) ==> j == n - 1 || Member(cands, j, n - 1, k, norm);
      EmptyGroup(cands, k, n - 1, norm);
    } else {
      i := GroupKeepsBest(cands, k, n - 1, norm);
      assert forall j :: Member(cands, j, n, k, norm) <==> j == n - 1 || Member(cands, j, n - 1, k, norm);
      if c.confidence > cands[i].confidence { i := n - 1; }
    }
  }

  lemma MemberGrows(cands: seq<Candidate>, n: nat, k: string, norm: Norm)
    requires 0 < n <= |cands|
    ensures forall j :: Member(cands, j, n, k, norm) <==>
      Member(cands, j, n - 1, k, norm) || (j == n - 1 && Key(cands[n-1], norm) == k)
  {
  }

  lemma GroupHasMember(cands: seq<Candidate>, k: string, n: nat, norm: Norm)
    requires n <= |cands| && Group(cands, k, n, norm).Some?
    ensures exists j :: Member(cands, j, n, k, norm)
  {
    GroupKey(cands, k, n, norm);
    var i :| 0 <= i < n && Key(cands[i], norm) == k;
    assert Member(cands, i, n, k, norm);
  }

  /** A group ends where its last member ends. */
  lemma {:induction false} GroupEnd(cands: seq<Candidate>, k: string, n: nat, norm: Norm)
    requires n <= |cands| && Group(cands, k, n, norm).Some?
    ensures forall j :: Member(cands, j, n, k, norm) ==> cands[j].end <= Group(cands, k, n, norm).value.end
    ensures exists j :: Member(cands, j, n, k, norm) && cands[j].end == Group(cands, k, n, norm).value.end
    decreases n
  {
    MemberGrows(cands, n, k, norm);
    if Group(cands, k, n - 1, norm).Some? {
      GroupEnd(cands, k, n - 1, norm);
      var j :| Member(cands, j, n - 1, k, norm) && cands[j].end == Group(cands, k, n - 1, norm).value.end;
      assert Member(cands, j, n, k, norm);
    }
    GroupKey(cands, k, n - 1, norm);
    assert Member(cands, n - 1, n, k, norm) <==> Key(cands[n-1], norm) == k;
    EmptyGroup(cands, k, n - 1, norm);
  }

  /** No member starts before the transcript does. */
  ghost predicate StartsCounted(cands: seq<Candidate>, n: nat, k: string, norm: Norm)
    requires n <= |cands|
  {
    forall j :: Member(cands, j, n, k, norm) ==> cands[j].start >= 0
  }

  /** A group starts at the least start above zero, and at zero only when there is none. */
  lemma {:induction false} GroupStart(cands: seq<Candidate>, k: string, n: nat, norm: Norm)
    requires n <= |cands| && Group(cands, k, n, norm).Some? && StartsCounted(cands, n, k, norm)
    ensures Group(cands, k, n, norm).value.start >= 0
    ensures forall j :: Member(cands, j, n, k, norm) && cands[j].start > 0 ==>
      0 < Group(cands, k, n, norm).value.start <= cands[j].start
    ensures exists j :: Member(cands, j, n, k, norm) && cands[j].start == Group(cands, k, n, norm).value.start
    decreases n
  {
    MemberGrows(cands, n, k, norm);
    EmptyGroup(cands, k, n - 1, norm);
    assert Member(cands, n - 1, n, k, norm) <==> Key(cands[n-1], norm) == k;
    if Group(cands, k, n - 1, norm).Some? {
      GroupStart(cands, k, n - 1, norm);
      var j :| Member(cands, j, n - 1, k, norm) && cands[j].start == Group(cands, k, n - 1, norm).value.start;
      assert Member(cands, j, n, k, norm);
    }
  }

  /** The group's range reaches back to all its members exactly when they all start at the
    * first message, or none does: a start of zero next to a later one is read as unknown. */
  lemma SpanCoversIff(cands: seq<Candidate>, k: string, n: nat, norm: Norm)
    requires n <= |cands| && Group(cands, k, n, norm).Some? && StartsCounted(cands, n, k, norm)
    ensures (forall j :: Member(cands, j, n, k, norm) ==> Group(cands, k, n, norm).value.start <= cands[j].start) <==>
            ((forall j :: Member(cands, j, n, k, norm) ==> cands[j].start == 0) ||
             (forall j :: Member(cands, j, n, k, norm) ==> cands[j].start > 0))
  {
    GroupStart(cands, k, n, norm);
    GroupHasMember(cands, k, n, norm);
  }

  /** The verdict of a group is the first its members give. */
  lemma {:induction false} GroupVerdict(cands: seq<Candidate>, k: string, n: nat, norm: Norm)
    requires n <= |cands| && Group(cands, k, n, norm).Some?
    ensures var w := Group(cands, k, n, norm).value.wikiWorthy;
      if w.None? then forall j :: Member(cands, j, n, k, norm) ==> cands[j].wikiWorthy.None?
      else exists i :: (Member(cands, i, n, k, norm) && cands[i].wikiWorthy == w
                        && forall j :: Member(cands, j, n, k, norm) && j < i ==> cands[j].wikiWorthy.None?)
    decreases n
  {
    MemberGrows(cands, n, k, norm);
    EmptyGroup(cands, k, n - 1, norm);
    assert Member(cands, n - 1, n, k, norm) <==> Key(cands[n-1], norm) == k;
    if Group(cands, k, n - 1, norm).Some? {
      GroupVerdict(cands, k, n - 1, norm);
      var w := Group(cands, k, n - 1, norm).value.wikiWorthy;
      if w.Some? {
        var i :| Member(cands, i, n - 1, k, norm) && cands[i].wikiWorthy == w
                 && forall j :: Member(cands, j, n - 1, k, norm) && j < i ==> cands[j].wikiWorthy.None?;
        assert Member(cands, i, n, k, norm);
      }
    }
  }

  lemma {:induction false} AddTagsHolds(tags: seq<string>, more: seq<string>, n: nat)
    requires n <= |more|
    ensures tags <= AddTags(tags, more, n)
    ensures forall t :: t in AddTags(tags, more, n) <==> t in tags || t in more[..n]
    decreases n
  {
    if n > 0 {
      AddTagsHolds(tags, more, n - 1);
      assert more[..n] == more[..n-1] + [more[n-1]];
    }
  }

  /** A group carries every tag of its members, and no other. */
  lemma {:induction false} GroupTags(cands: seq<Candidate>, k: string, n: nat, norm: Norm, t: string)
    requires n <= |cands| && Group(cands, k, n, norm).Some?
    ensures t in Group(cands, k, n, norm).value.tags <==> exists j :: Member(cands, j, n, k, norm) && t in cands[j].tags
    decreases n
  {
    MemberGrows(cands, n, k, norm);
    GroupKey(cands, k, n - 1, norm);
    var c := cands[n-1];
    assert c.tags[..|c.tags|] == c.tags;
    EmptyGroup(cands, k, n - 1, norm);
    assert Member(cands, n - 1, n, k, norm) <==> Key(c, norm) == k;
    if Group(cands, k, n - 1, norm).Some? {
      GroupTags(cands, k, n - 1, norm, t);
      AddTagsHolds(Group(cands, k, n - 1, norm).value.tags, c.tags, |c.tags|);
      if j :| Member(cands, j, n - 1, k, norm) && t in cands[j].tags { assert Member(cands, j, n, k, norm); }
    }
  }

  /** The tags of a group's members among the first `n`, one member after the other. */
  function MemberTags(cands: seq<Candidate>, k: string, n: nat, norm: Norm): seq<string>
    requires n <= |cands|
    decreases n
  {
    if n == 0 then []
    else MemberTags(cands, k, n - 1, norm) + if Key(cands[n-1], norm) == k then cands[n-1].tags else []
  }

  /** `all` without the tags that occur before, other than its first `m`. */
  function WithoutRepeats(all: seq<string>, m: nat): seq<Option<string>> {
    seq(|all|, i requires 0 <= i < |all| => if i < m || all[i] !in all[..i] then Some(all[i]) else None)
  }

  lemma OneMoreTag(all: seq<string>, m: nat, t: string)
    ensures Present(WithoutRepeats(all + [t], m)) ==
      Present(WithoutRepeats(all, m)) + if |all| < m || t !in all then [t] else []
  {
    var next: Option<string> := if |all| < m || t !in all then Some(t) else None;
    assert forall i :: 0 <= i < |all| ==> (all + [t])[..i] == all[..i];
    assert (all + [t])[..|all|] == all;
    assert WithoutRepeats(all + [t], m) == WithoutRepeats(all, m) + [next];
    PresentMore(WithoutRepeats(all, m), next);
  }

  lemma {:induction false} SameTags(all: seq<string>, m: nat)
    ensures forall t :: t in Present(WithoutRepeats(all, m)) <==> t in all
    ensures m >= |all| ==> Present(WithoutRepeats(all, m)) == all
  {
    if all != [] {
      var front, t := all[..|all|-1], all[|all|-1];
      SameTags(front, m);
      OneMoreTag(front, m, t);
      assert all == front + [t];
    }
  }

  function FirstUses(all: seq<string>, m: nat): seq<string> {
    Present(WithoutRepeats(all, m))
  }

  lemma NextTag(all: seq<string>, m: nat, t: string, some: seq<string>)
    requires m <= |all| && some == all + [t]
    ensures var kept := FirstUses(all, m); FirstUses(some, m) == if t in kept then kept else kept + [t]
  {
    SameTags(all, m);
    OneMoreTag(all, m, t);
  }

  lemma {:induction false} AddTagsOnce(all: seq<string>, m: nat, more: seq<string>, n: nat)
    requires m <= |all| && n <= |more|
    ensures AddTags(FirstUses(all, m), more, n) == FirstUses(all + more[..n], m)
    decreases n
  {
    if n == 0 {
      assert all + more[..0] == all;
    } else {
      AddTagsOnce(all, m, more, n - 1);
      assert all + more[..n] == all + more[..n-1] + [more[n-1]];
      NextTag(all + more[..n-1], m, more[n-1], all + more[..n]);
    }
  }

  lemma {:induction false} NoMemberTags(cands: seq<Candidate>, k: string, n: nat, norm: Norm)
    requires n <= |cands| && Group(cands, k, n, norm).None?
    ensures MemberTags(cands, k, n, norm) == []
    decreases n
  {
    if n > 0 { NoMemberTags(cands, k, n - 1, norm); }
  }

  /** Among the first `n` candidates, `first` is the earliest with key `k`. */
  ghost predicate FirstMember(cands: seq<Candidate>, first: int, n: nat, k: string, norm: Norm)
    requires n <= |cands|
  {
    Member(cands, first, n, k, norm) && forall j :: Member(cands, j, n, k, norm) ==> first <= j
  }

  lemma FirstStays(cands: seq<Candidate>, first: int, n: nat, k: string, norm: Norm)
    requires 0 < n <= |cands| && FirstMember(cands, first, n - 1, k, norm)
    ensures FirstMember(cands, first, n, k, norm)
  {
    MemberGrows(cands, n, k, norm);
  }

  lemma FirstArrives(cands: seq<Candidate>, n: nat, k: string, norm: Norm)
    requires 0 < n <= |cands| && Key(cands[n-1], norm) == k && Group(cands, k, n - 1, norm).None?
    ensures FirstMember(cands, n - 1, n, k, norm)
  {
    MemberGrows(cands, n, k, norm);
    EmptyGroup(cands, k, n - 1, norm);
  }

  lemma {:induction false} GroupTagsAreUses(cands: seq<Candidate>, k: string, n: nat, norm: Norm) returns (first: nat)
    requires n <= |cands| && Group(cands, k, n, norm).Some?
    ensures FirstMember(cands, first, n, k, norm) && |cands[first].tags| <= |MemberTags(cands, k, n, norm)|
    ensures Group(cands, k, n, norm).value.tags == FirstUses(MemberTags(cands, k, n, norm), |cands[first].tags|)
    decreases n
  {
    var tags, before := cands[n-1].tags, MemberTags(cands, k, n - 1, norm);
    if Group(cands, k, n - 1, norm).None? {
      NoMemberTags(cands, k, n - 1, norm);
      FirstArrives(cands, n, k, norm);
      SameTags(tags, |tags|);
      first := n - 1;
      assert [] + tags == tags;
    } else {
      first := GroupTagsAreUses(cands, k, n - 1, norm);
      FirstStays(cands, first, n, k, norm);
      AddTagsOnce(before, |cands[first].tags|, tags, |tags|);
      assert tags[..|tags|] == tags && before + [] == before;
    }
  }

  /** The tags of a group: those of its first member as they are, then every tag that is new
    * where a later member mentions it, in the order of mention. */
  lemma GroupTagsOnce(cands: seq<Candidate>, k: string, n: nat, norm: Norm) returns (first: nat)
    requires n <= |cands| && Group(cands, k, n, norm).Some?
    ensures FirstMember(cands, first, n, k, norm)
    ensures Somes(WithoutRepeats(MemberTags(cands, k, n, norm), |cands[first].tags|),
                  Group(cands, k, n, norm).value.tags)
  {
    first := GroupTagsAreUses(cands, k, n, norm);
    PresentIs(WithoutRepeats(MemberTags(cands, k, n, norm), |cands[first].tags|));
  }
}
