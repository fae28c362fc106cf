/** Turn numbers shown to the model, and the message ranges they are mapped back to. */
module Turns {
  import opened Selection

  datatype Role = User | Assistant | Tool | Other

  datatype Message = Message(role: Role, content: string)

  /** One rendered message with its turn number. */
  datatype Line = Line(number: nat, role: Role, text: string)

  /** How messages are written out: white space at both ends goes; `line` writes a numbered
    * turn, `user` and `assistant` quote a message. */
  datatype Text = Text(trim: string -> string, line: Line -> string, user: string -> string,
                       assistant: string -> string)

  /** Whatever is written out leaves a mark. */
  ghost predicate Visible(t: Text) {
    && (forall l :: t.line(l) != [])
    && (forall s :: t.user(s) != [])
    && (forall s :: t.assistant(s) != [])
  }

  // ---------------------------------------------------------------------------------
  // The written form

  function Decimal(n: nat): string {
    var digit := ["0123456789"[n % 10]];
    if n < 10 then digit else Decimal(n / 10) + digit
  }

  function Digit(c: char): int {
    c as int - '0' as int
  }

  /** The number a string of digits stands for. */
  function Value(s: string): int {
    if s == [] then 0 else 10 * Value(s[..|s|-1]) + Digit(s[|s|-1])
  }

  lemma DigitIs(n: nat)
    requires n < 10
    ensures Digit("0123456789"[n]) == n
  {
  }

  /** The number written is the number read. */
  lemma {:induction false} DecimalIs(n: nat)
    ensures Value(Decimal(n)) == n && Decimal(n) != []
    decreases n
  {
    DigitIs(n % 10);
    var digit := "0123456789"[n % 10];
    assert Decimal(n)[|Decimal(n)|-1] == digit;
    if n < 10 {
      assert Decimal(n) == [digit] && [digit][..0] == [];
      assert Value([]) == 0;
    } else {
      DecimalIs(n / 10);
      assert Decimal(n)[..|Decimal(n)|-1] == Decimal(n / 10);
    }
  }

  function Name(r: Role): string {
    match r
    case User => "USER"
    case Assistant => "ASSISTANT"
    case Tool => "TOOL"
    case Other => ""
  }

  /** The forms used, around a way to trim white space and to cut text short. */
  function Written(trim: string -> string, cut: (string, nat) -> string): (t: Text)
    ensures Visible(t)
  {
    Text(trim,
         (l: Line) => "Turn " + Decimal(l.number) + " [" + Name(l.role) + "]: " + l.text + "\n",
         (s: string) => "[USER]: " + cut(s, 400) + "\n",
         (s: string) => "[ASSISTANT]: " + cut(s, 300) + "\n")
  }

  // ---------------------------------------------------------------------------------
  // Rendering

  predicate Rendered(m: Message, includeTool: bool, t: Text) {
    && t.trim(m.content) != []
    && (m.role == User || m.role == Assistant || (m.role == Tool && includeTool))
  }

  function Renders(includeTool: bool, t: Text): Message -> bool {
    m => Rendered(m, includeTool, t)
  }

  function RenderIndices(turns: seq<Message>, includeTool: bool, t: Text): seq<nat> {
    Where(turns, Renders(includeTool, t), |turns|)
  }

  /** The numbered lines of the first `n` messages. */
  function Lines(turns: seq<Message>, n: nat, includeTool: bool, t: Text): seq<Line>
    requires n <= |turns|
    decreases n
  {
    if n == 0 then []
    else
      var front, m := Lines(turns, n - 1, includeTool, t), turns[n-1];
      front + if Rendered(m, includeTool, t) then [Line(|front| + 1, m.role, t.trim(m.content))] else []
  }

  /** Lines written one after the other. */
  function Print(lines: seq<Line>, n: nat, t: Text): string
    requires n <= |lines|
    decreases n
  {
    if n == 0 then [] else Print(lines, n - 1, t) + t.line(lines[n-1])
  }

  function Snapshot(turns: seq<Message>, includeTool: bool, t: Text): string {
    var lines := Lines(turns, |turns|, includeTool, t);
    Print(lines, |lines|, t)
  }

  lemma {:induction false} PrintAgrees(x: seq<Line>, y: seq<Line>, n: nat, t: Text)
    requires n <= |x| && n <= |y| && forall i :: 0 <= i < n ==> x[i] == y[i]
    ensures Print(x, n, t) == Print(y, n, t)
    decreases n
  {
    if n > 0 { PrintAgrees(x, y, n - 1, t); }
  }

  lemma PrintSnoc(lines: seq<Line>, l: Line, t: Text)
    ensures Print(lines + [l], |lines| + 1, t) == Print(lines, |lines|, t) + t.line(l)
  {
    PrintAgrees(lines, lines + [l], |lines|, t);
  }

  method Summarize(turns: seq<Message>, includeTool: bool, t: Text) returns (s: string)
    ensures s == Snapshot(turns, includeTool, t)
  {
    s := [];
    var turnNum := 1;
    ghost var lines: seq<Line> := [];
    for i := 0 to |turns|
      invariant lines == Lines(turns, i, includeTool, t) && turnNum == |lines| + 1
      invariant s == Print(lines, |lines|, t)
    {
      var m := turns[i];
      var text := t.trim(m.content);
      if text == [] { continue; }
      PrintSnoc(lines, Line(turnNum, m.role, text), t);
      match m.role {
        case User => s := s + t.line(Line(turnNum, User, text));
        case Assistant => s := s + t.line(Line(turnNum, Assistant, text));
        case Tool =>
          if !includeTool { continue; }
          s := s + t.line(Line(turnNum, Tool, text));
        case Other => continue;
      }
      lines := lines + [Line(turnNum, m.role, text)];
      turnNum := turnNum + 1;
    }
  }

  /** What the `k`-th rendered message is written as: its number, role and trimmed text. */
  ghost function WrittenLines(turns: seq<Message>, includeTool: bool, t: Text): (r: seq<string>)
    ensures |r| == |RenderIndices(turns, includeTool, t)|
  {
    var idx := RenderIndices(turns, includeTool, t);
    PositionsRise(turns, Renders(includeTool, t), |turns|);
    seq(|idx|, k requires 0 <= k < |idx| && idx[k] < |turns| =>
      t.line(Line(k + 1, turns[idx[k]].role, t.trim(turns[idx[k]].content))))
  }

  lemma {:induction false} PrintBlocks(lines: seq<Line>, n: nat, t: Text) returns (cuts: seq<nat>, parts: seq<string>)
    requires n <= |lines|
    ensures Blocks(Print(lines, n, t), cuts, parts) && |parts| == n
    ensures forall k :: 0 <= k < n ==> parts[k] == t.line(lines[k])
    decreases n
  {
    if n == 0 {
      NoBlocks<char>();
      cuts, parts := [0], [];
    } else {
      cuts, parts := PrintBlocks(lines, n - 1, t);
      var before, more := Print(lines, n - 1, t), t.line(lines[n-1]);
      OneMoreBlock(before, cuts, parts, more);
      cuts, parts := cuts + [|before| + |more|], parts + [more];
    }
  }

  /** A window renders to one block per rendered message, in order and with nothing between. */
  lemma SnapshotBlocks(turns: seq<Message>, includeTool: bool, t: Text) returns (cuts: seq<nat>)
    ensures Blocks(Snapshot(turns, includeTool, t), cuts, WrittenLines(turns, includeTool, t))
  {
    var lines := Lines(turns, |turns|, includeTool, t);
    var parts;
    NthIndexIsNthTurn(turns, |turns|, includeTool, t);
    cuts, parts := PrintBlocks(lines, |lines|, t);
    assert parts == WrittenLines(turns, includeTool, t);
  }

  method CollectIndices(turns: seq<Message>, includeTool: bool, t: Text) returns (idx: seq<nat>)
    ensures idx == RenderIndices(turns, includeTool, t) && Increasing(idx)
    ensures forall i: nat :: i in idx <==>
      i < |turns| && t.trim(turns[i].content) != [] && turns[i].role != Other && (turns[i].role == Tool ==> includeTool)
  {
    PositionsRise(turns, Renders(includeTool, t), |turns|);
    WhereIs(turns, Renders(includeTool, t), |turns|);
    idx := [];
    for i := 0 to |turns|
      invariant idx == Where(turns, Renders(includeTool, t), i)
    {
      var m := turns[i];
      if m.role != User && m.role != Assistant && !(includeTool && m.role == Tool) { continue; }
      if t.trim(m.content) == [] { continue; }
      idx := idx + [i];
    }
  }

  /** The k-th position listed is that of the message numbered k + 1. */
  lemma {:induction false} NthIndexIsNthTurn(turns: seq<Message>, n: nat, includeTool: bool, t: Text)
    requires n <= |turns|
    ensures var idx, lines := Where(turns, Renders(includeTool, t), n), Lines(turns, n, includeTool, t);
      && |lines| == |idx|
      && (forall k :: 0 <= k < |idx| ==>
            idx[k] < n && lines[k] == Line(k + 1, turns[idx[k]].role, t.trim(turns[idx[k]].content)))
    decreases n
  {
    if n > 0 { NthIndexIsNthTurn(turns, n - 1, includeTool, t); }
  }

  lemma {:induction false} LinesAgree(a: seq<Message>, b: seq<Message>, n: nat, includeTool: bool, t: Text)
    requires n <= |a| && n <= |b| && forall i :: 0 <= i < n ==> a[i] == b[i]
    ensures Lines(a, n, includeTool, t) == Lines(b, n, includeTool, t)
    decreases n
  {
    if n > 0 { LinesAgree(a, b, n - 1, includeTool, t); }
  }

  ghost predicate AnyRendered(turns: seq<Message>, lo: nat, hi: nat, includeTool: bool, t: Text) {
    exists i :: lo <= i < hi && i < |turns| && Rendered(turns[i], includeTool, t)
  }

  lemma {:induction false} MoreLines(turns: seq<Message>, m: nat, n: nat, includeTool: bool, t: Text)
    requires m <= n <= |turns|
    ensures var x, y := Lines(turns, m, includeTool, t), Lines(turns, n, includeTool, t);
      && |x| <= |y| && (forall i :: 0 <= i < |x| ==> y[i] == x[i])
      && (|x| < |y| <==> AnyRendered(turns, m, n, includeTool, t))
    decreases n
  {
    if m < n {
      MoreLines(turns, m, n - 1, includeTool, t);
      assert AnyRendered(turns, m, n, includeTool, t) <==>
        AnyRendered(turns, m, n - 1, includeTool, t) || Rendered(turns[n-1], includeTool, t);
    }
  }

  lemma {:induction false} PrintGrows(y: seq<Line>, m: nat, n: nat, t: Text)
    requires Visible(t) && m <= n <= |y|
    ensures Print(y, m, t) <= Print(y, n, t)
    ensures m < n ==> |Print(y, m, t)| < |Print(y, n, t)|
    decreases n
  {
    if m < n {
      PrintGrows(y, m, n - 1, t);
      assert t.line(y[n-1]) != [];
    }
  }

  /** What a window renders to is a prefix of what any longer window renders to, and a proper
    * one exactly when the longer window adds a message that is rendered. */
  lemma SnapshotIsPrefix(turns: seq<Message>, w: seq<Message>, includeTool: bool, t: Text)
    requires Visible(t) && w <= turns
    ensures Snapshot(w, includeTool, t) <= Snapshot(turns, includeTool, t)
    ensures Snapshot(w, includeTool, t) < Snapshot(turns, includeTool, t) <==>
      AnyRendered(turns, |w|, |turns|, includeTool, t)
  {
    LinesAgree(w, turns, |w|, includeTool, t);
    MoreLines(turns, |w|, |turns|, includeTool, t);
    var x, y := Lines(w, |w|, includeTool, t), Lines(turns, |turns|, includeTool, t);
    PrintAgrees(x, y, |x|, t);
    PrintGrows(y, |x|, |y|, t);
  }

  // ---------------------------------------------------------------------------------
  // Turn ranges

  type Range = (int, int)

  function Between(lo: int, x: int, hi: int): int {
    if x < lo then lo else if x > hi then hi else x
  }

  function MapTurnRange(r: Range, idx: seq<nat>): Range {
    if |idx| == 0 || r == (0, 0) then r
    else
      var s := if r.0 < 1 then 1 else r.0;
      var e := if r.1 < 1 then 1 else r.1;
      var e' := if e > |idx| then |idx| else e;
      var e'' := if e' < s then s else e';
      if s > |idx| then r else (idx[s-1], idx[e''-1])
  }

  /** A range that is given at all is brought into bounds and into order, unless it starts
    * beyond the last turn. */
  lemma MalformedRangesClamp(r: Range, idx: seq<nat>)
    requires Increasing(idx) && idx != [] && r != (0, 0)
    ensures r.0 <= |idx| ==>
              var s := Between(1, r.0, |idx|);
              var e := Between(s, r.1, |idx|);
              MapTurnRange(r, idx) == (idx[s-1], idx[e-1]) && idx[s-1] <= idx[e-1]
    ensures r.0 > |idx| ==> MapTurnRange(r, idx) == r
  {
    assert forall i, j :: 0 <= i <= j < |idx| ==> idx[i] <= idx[j];
  }

  lemma SliceBetween(idx: seq<nat>, lo: nat, hi: nat, i: nat)
    requires Increasing(idx) && lo <= hi < |idx|
    ensures i in idx[lo..hi+1] <==> i in idx && idx[lo] <= i <= idx[hi]
  {
    if i in idx[lo..hi+1] {
      var k :| 0 <= k < |idx[lo..hi+1]| && idx[lo..hi+1][k] == i;
      assert idx[lo + k] == i;
    }
    if i in idx && idx[lo] <= i <= idx[hi] {
      var k :| 0 <= k < |idx| && idx[k] == i;
      assert lo <= k <= hi;
      assert idx[lo..hi+1][k - lo] == i;
    }
  }

  /** Turns s to e are exactly the rendered messages inside the mapped range. */
  lemma MappedRangeHoldsTurns(turns: seq<Message>, includeTool: bool, t: Text, s: nat, e: nat)
    requires 1 <= s <= e <= |RenderIndices(turns, includeTool, t)|
    ensures var idx := RenderIndices(turns, includeTool, t); var r := MapTurnRange((s, e), idx);
      && r == (idx[s-1], idx[e-1]) && r.0 <= r.1 < |turns|
      && (forall i: nat :: r.0 <= i <= r.1 ==> (Rendered(turns[i], includeTool, t) <==> i in idx[s-1..e]))
      && (forall k :: s - 1 <= k < e ==> r.0 <= idx[k] <= r.1)
  {
    var idx := RenderIndices(turns, includeTool, t);
    WhereIs(turns, Renders(includeTool, t), |turns|);
    PositionsRise(turns, Renders(includeTool, t), |turns|);
    MalformedRangesClamp((s, e), idx);
    forall i: nat ensures i in idx[s-1..e] <==> i in idx && idx[s-1] <= i <= idx[e-1] {
      SliceBetween(idx, s - 1, e - 1, i);
    }
  }

  // ---------------------------------------------------------------------------------
  // The conversation segment behind a point

  /** One message as quoted, or nothing. */
  function Quote(m: Message, t: Text): string {
    var text := t.trim(m.content);
    if text == [] then []
    else match m.role
      case User => t.user(text)
      case Assistant => t.assistant(text)
      case _ => []
  }

  /** The messages from `lo` up to `hi`, quoted one after the other. */
  function QuoteAll(msgs: seq<Message>, lo: nat, hi: nat, t: Text): string
    requires lo <= hi <= |msgs|
    decreases hi
  {
    if hi == lo then [] else QuoteAll(msgs, lo, hi - 1, t) + Quote(msgs[hi-1], t)
  }

  /** What each message from `lo` on is quoted as: the words of the user or the assistant, each in
    * its own form, and nothing for any other message or a blank one. */
  ghost predicate QuotedAs(msgs: seq<Message>, lo: nat, t: Text, parts: seq<string>)
    requires lo + |parts| <= |msgs|
  {
    forall k :: 0 <= k < |parts| ==> SaidBy(msgs[lo + k], t, parts[k])
  }

  predicate SaidBy(m: Message, t: Text, part: string) {
    var text := t.trim(m.content);
    && (m.role == User && text != [] ==> part == t.user(text))
    && (m.role == Assistant && text != [] ==> part == t.assistant(text))
    && (text == [] || m.role == Tool || m.role == Other ==> part == [])
  }

  /** The quoted segment is one block per message, in order and with nothing between. */
  lemma {:induction false} QuoteBlocks(msgs: seq<Message>, lo: nat, hi: nat, t: Text)
    returns (cuts: seq<nat>, parts: seq<string>)
    requires lo <= hi <= |msgs|
    ensures Blocks(QuoteAll(msgs, lo, hi, t), cuts, parts) && |parts| == hi - lo && QuotedAs(msgs, lo, t, parts)
    decreases hi
  {
    if hi == lo {
      NoBlocks<char>();
      cuts, parts := [0], [];
    } else {
      cuts, parts := QuoteBlocks(msgs, lo, hi - 1, t);
      var before, more := QuoteAll(msgs, lo, hi - 1, t), Quote(msgs[hi-1], t);
      OneMoreBlock(before, cuts, parts, more);
      cuts, parts := cuts + [|before| + |more|], parts + [more];
    }
  }

  function First(tr: Range): nat {
    if tr.0 < 0 then 0 else tr.0
  }

  function Last(tr: Range, n: nat): int {
    if tr.1 >= n then n - 1 else tr.1
  }

  /** The part of a range that lies inside the transcript, quoted; the range (0, 0) stands for
    * no range at all. */
  function Segment(msgs: seq<Message>, tr: Range, t: Text): string {
    if tr == (0, 0) || First(tr) > Last(tr, |msgs|) then []
    else QuoteAll(msgs, First(tr), Last(tr, |msgs|) + 1, t)
  }

  method DialogSegment(msgs: seq<Message>, tr: Range, t: Text) returns (b: string)
    ensures b == Segment(msgs, tr, t)
  {
    if tr == (0, 0) { return []; }
    var s, e := tr.0, tr.1;
    if s < 0 { s := 0; }
    if e >= |msgs| { e := |msgs| - 1; }
    if s > e || s >= |msgs| { return []; }
    b := [];
    for i := s to e + 1
      invariant b == QuoteAll(msgs, s, i, t)
    {
      var m := msgs[i];
      var text := t.trim(m.content);
      if text == [] { continue; }
      match m.role {
        case User => b := b + t.user(text);
        case Assistant => b := b + t.assistant(text);
        case _ =>
      }
    }
  }

  lemma {:induction false} QuoteAgrees(a: seq<Message>, b: seq<Message>, lo: nat, hi: nat, d: nat, t: Text)
    requires lo <= hi <= |a| && hi + d <= |b| && forall i :: lo <= i < hi ==> a[i] == b[i + d]
    ensures QuoteAll(a, lo, hi, t) == QuoteAll(b, lo + d, hi + d, t)
    decreases hi
  {
    if lo < hi {
      QuoteAgrees(a, b, lo, hi - 1, d, t);
      assert a[hi-1] == b[hi - 1 + d];
    }
  }

  lemma {:induction false} QuoteSame(a: seq<Message>, b: seq<Message>, n: nat, t: Text)
    requires n <= |a| && n <= |b| && forall i :: 0 <= i < n ==> a[i] == b[i]
    ensures QuoteAll(a, 0, n, t) == QuoteAll(b, 0, n, t)
    decreases n
  {
    if n > 0 { QuoteSame(a, b, n - 1, t); }
  }

  lemma QuoteSnoc(msgs: seq<Message>, m: Message, t: Text)
    ensures QuoteAll(msgs + [m], 0, |msgs| + 1, t) == QuoteAll(msgs, 0, |msgs|, t) + Quote(m, t)
  {
    var more := msgs + [m];
    QuoteSame(msgs, more, |msgs|, t);
    assert more[|msgs|] == m;
  }

  lemma QuoteSlice(msgs: seq<Message>, lo: nat, hi: nat, part: seq<Message>, t: Text)
    requires lo <= hi <= |msgs| && part == msgs[lo..hi]
    ensures QuoteAll(part, 0, |part|, t) == QuoteAll(msgs, lo, hi, t)
  {
    QuoteAgrees(part, msgs, 0, |part|, lo, t);
  }

  /** The messages that are numbered, in order. */
  function Numbered(turns: seq<Message>, includeTool: bool, t: Text): seq<Message> {
    Keep(turns, Renders(includeTool, t), 0, |turns|)
  }

  /** Quoting skips what is not numbered. */
  lemma {:induction false} QuoteSkips(turns: seq<Message>, lo: nat, hi: nat, includeTool: bool, t: Text)
    requires lo <= hi <= |turns|
    ensures var kept := Keep(turns, Renders(includeTool, t), lo, hi);
      QuoteAll(turns, lo, hi, t) == QuoteAll(kept, 0, |kept|, t)
    decreases hi
  {
    if lo < hi {
      var p := Renders(includeTool, t);
      var front, m := Keep(turns, p, lo, hi - 1), turns[hi-1];
      QuoteSkips(turns, lo, hi - 1, includeTool, t);
      if Rendered(m, includeTool, t) {
        assert Keep(turns, p, lo, hi) == front + [m];
        QuoteSnoc(front, m, t);
      } else {
        assert Keep(turns, p, lo, hi) == front;
        assert Quote(m, t) == [];
      }
    }
  }

  /** Quoting from turn s's position to turn e's says what turns s to e say. */
  lemma SegmentOfTurns(turns: seq<Message>, includeTool: bool, t: Text, s: nat, e: nat)
    requires 1 <= s <= e <= |RenderIndices(turns, includeTool, t)|
    ensures var lo, hi := RenderIndices(turns, includeTool, t)[s-1], RenderIndices(turns, includeTool, t)[e-1];
      && lo <= hi < |turns| && e <= |Numbered(turns, includeTool, t)|
      && QuoteAll(turns, lo, hi + 1, t) == QuoteAll(Numbered(turns, includeTool, t), s - 1, e, t)
  {
    var lo, hi := RenderIndices(turns, includeTool, t)[s-1], RenderIndices(turns, includeTool, t)[e-1];
    var said := Numbered(turns, includeTool, t);
    assert lo <= hi < |turns| && e <= |said| && Keep(turns, Renders(includeTool, t), lo, hi + 1) == said[s-1..e] by {
      StretchKeeps(turns, Renders(includeTool, t), s - 1, e - 1);
    }
    QuoteSkips(turns, lo, hi + 1, includeTool, t);
    QuoteSlice(said, s - 1, e, said[s-1..e], t);
  }

  /** The first message of the transcript is turn 1. */
  predicate StartsAtOnce(turns: seq<Message>, includeTool: bool, t: Text) {
    turns != [] && Rendered(turns[0], includeTool, t)
  }

  lemma OnlyFirst(turns: seq<Message>, includeTool: bool, t: Text, e: nat)
    requires 1 <= e <= |RenderIndices(turns, includeTool, t)|
    ensures RenderIndices(turns, includeTool, t)[e-1] == 0 <==> e == 1 && StartsAtOnce(turns, includeTool, t)
  {
    var p, idx := Renders(includeTool, t), RenderIndices(turns, includeTool, t);
    PositionsRise(turns, p, |turns|);
    InOrder(idx, 0, e - 1);
    NthPosition(turns, p, |turns|, e - 1);
    WhereIs(turns, p, |turns|);
    if e == 1 && StartsAtOnce(turns, includeTool, t) {
      var k :| 0 <= k < |idx| && idx[k] == 0;
      InOrder(idx, 0, k);
    }
  }

  lemma FirstSaysSomething(turns: seq<Message>, includeTool: bool, t: Text)
    requires Visible(t) && StartsAtOnce(turns, includeTool, t)
    ensures QuoteAll(turns, 0, 1, t) != [] <==> turns[0].role != Tool
  {
    var text := t.trim(turns[0].content);
    assert t.user(text) != [] && t.assistant(text) != [];
    assert QuoteAll(turns, 0, 1, t) == Quote(turns[0], t);
  }

  lemma SegmentWithin(turns: seq<Message>, lo: nat, hi: nat, t: Text)
    requires lo <= hi < |turns|
    ensures Segment(turns, (lo, hi), t) == if hi == 0 then [] else QuoteAll(turns, lo, hi + 1, t)
  {
  }

  /** The segment quoted for a mapped range is exactly what turns s to e say, unless that is
    * the first message of the transcript alone: its range, (0, 0), reads as no range. */
  lemma SegmentIsExactIff(turns: seq<Message>, includeTool: bool, t: Text, s: nat, e: nat)
    requires Visible(t) && 1 <= s <= e <= |Numbered(turns, includeTool, t)|
    ensures Segment(turns, MapTurnRange((s, e), RenderIndices(turns, includeTool, t)), t)
              == QuoteAll(Numbered(turns, includeTool, t), s - 1, e, t) <==>
            !(e == 1 && StartsAtOnce(turns, includeTool, t) && turns[0].role != Tool)
  {
    var idx := RenderIndices(turns, includeTool, t);
    assert |idx| == |Numbered(turns, includeTool, t)| by { WhereCounts(turns, Renders(includeTool, t), |turns|); }
    SegmentOfTurns(turns, includeTool, t, s, e);
    OnlyFirst(turns, includeTool, t, e);
    var lo, hi := idx[s-1], idx[e-1];
    assert MapTurnRange((s, e), idx) == (lo, hi);
    SegmentWithin(turns, lo, hi, t);
    if hi == 0 { FirstSaysSomething(turns, includeTool, t); }
  }

  // ---------------------------------------------------------------------------------
  // The segment behind a group of points

  /** From the least start to the greatest end of the first `n` ranges. */
  function Span(rs: seq<Range>, n: nat): Range
    requires 0 < n <= |rs|
    decreases n
  {
    if n == 1 then rs[0]
    else
      var (s, e), (s', e') := Span(rs, n - 1), rs[n-1];
      (if s' < s then s' else s, if e' > e then e' else e)
  }

  /** The span reaches over every range, and no further. */
  lemma {:induction false} SpanIsHull(rs: seq<Range>, n: nat)
    requires 0 < n <= |rs|
    ensures forall i :: 0 <= i < n ==> Span(rs, n).0 <= rs[i].0 && rs[i].1 <= Span(rs, n).1
    ensures exists i :: 0 <= i < n && rs[i].0 == Span(rs, n).0
    ensures exists i :: 0 <= i < n && rs[i].1 == Span(rs, n).1
    decreases n
  {
    if n == 1 {
      assert rs[0] == Span(rs, n);
    } else {
      SpanIsHull(rs, n - 1);
      var i :| 0 <= i < n - 1 && rs[i].0 == Span(rs, n - 1).0;
      var j :| 0 <= j < n - 1 && rs[j].1 == Span(rs, n - 1).1;
      assert rs[if rs[n-1].0 < rs[i].0 then n - 1 else i].0 == Span(rs, n).0;
      assert rs[if rs[n-1].1 > rs[j].1 then n - 1 else j].1 == Span(rs, n).1;
    }
  }

  method DialogSpan(msgs: seq<Message>, unit: seq<Range>, t: Text) returns (b: string)
    ensures b == if unit == [] then [] else Segment(msgs, Span(unit, |unit|), t)
  {
    if |unit| == 0 { return []; }
    var s, e := unit[0].0, unit[0].1;
    for i := 1 to |unit|
      invariant (s, e) == Span(unit, i)
    {
      if unit[i].0 < s { s := unit[i].0; }
      if unit[i].1 > e { e := unit[i].1; }
    }
    b := DialogSegment(msgs, (s, e), t);
  }

  /** One point without a known range is enough for a group to be quoted from the first
    * message on, up to the end of the last known range. */
  lemma UnknownRangeQuotesFromStart(msgs: seq<Message>, unit: seq<Range>, t: Text, i: nat)
    requires i < |unit| && unit[i] == (0, 0) && Span(unit, |unit|).1 > 0 && msgs != []
    ensures Segment(msgs, Span(unit, |unit|), t) == QuoteAll(msgs, 0, Last(Span(unit, |unit|), |msgs|) + 1, t)
  {
    SpanIsHull(unit, |unit|);
  }

  lemma {:induction false} QuoteSplit(msgs: seq<Message>, lo: nat, mid: nat, hi: nat, t: Text)
    requires lo <= mid <= hi <= |msgs|
    ensures QuoteAll(msgs, lo, hi, t) == QuoteAll(msgs, lo, mid, t) + QuoteAll(msgs, mid, hi, t)
    decreases hi
  {
    if mid < hi { QuoteSplit(msgs, lo, mid, hi - 1, t); }
  }

  function Given(): Range -> bool {
    (r: Range) => r != (0, 0)
  }

  /** The ranges of a group that are given. */
  function Known(unit: seq<Range>): seq<Range> {
    Keep(unit, Given(), 0, |unit|)
  }

  lemma KnownIs(unit: seq<Range>, r: Range)
    ensures r in Known(unit) <==> r in unit && r != (0, 0)
  {
    KeepHolds(unit, Given(), |unit|, r);
    assert unit[..|unit|] == unit;
  }

  /** An unknown range stretches the span of the known ones to zero. */
  lemma SpanWithUnknown(unit: seq<Range>)
    requires (0, 0) in unit && Known(unit) != []
    ensures var known, span := Span(Known(unit), |Known(unit)|), Span(unit, |unit|);
      && span.0 == (if known.0 < 0 then known.0 else 0)
      && span.1 == if known.1 > 0 then known.1 else 0
  {
    var k := Known(unit);
    forall r ensures r in k <==> r in unit && r != (0, 0) { KnownIs(unit, r); }
    SpanIsHull(unit, |unit|);
    SpanIsHull(k, |k|);
    var a :| 0 <= a < |unit| && unit[a].0 == Span(unit, |unit|).0;
    var b :| 0 <= b < |unit| && unit[b].1 == Span(unit, |unit|).1;
    var c :| 0 <= c < |k| && k[c].0 == Span(k, |k|).0;
    var d :| 0 <= d < |k| && k[d].1 == Span(k, |k|).1;
    assert unit[a] == (0, 0) || unit[a] in k;
    assert unit[b] == (0, 0) || unit[b] in k;
    assert k[c] in unit && k[d] in unit;
  }

  lemma {:induction false} KeptAll(unit: seq<Range>, n: nat)
    requires n <= |unit| && forall i :: 0 <= i < n ==> unit[i] != (0, 0)
    ensures Keep(unit, Given(), 0, n) == unit[..n]
    decreases n
  {
    if n > 0 {
      KeptAll(unit, n - 1);
      assert unit[..n] == unit[..n-1] + [unit[n-1]];
    }
  }

  /** How many messages at the start of a transcript of `n` an unknown range adds to a group
    * whose known ranges span `known`. */
  function Extra(known: Range, n: nat): (r: nat)
    ensures r <= n
  {
    if known.0 < 0 then (if known.1 < 0 && n > 0 then 1 else 0)
    else if known.1 <= 0 then 0
    else Smallest(known.0, known.1 + 1, n)
  }

  function Smallest(a: int, b: int, c: int): int {
    if a <= b && a <= c then a else if b <= c then b else c
  }

  lemma SegmentStretched(msgs: seq<Message>, known: Range, t: Text)
    ensures var span := (if known.0 < 0 then known.0 else 0, if known.1 > 0 then known.1 else 0);
      Segment(msgs, span, t) == QuoteAll(msgs, 0, Extra(known, |msgs|), t) + Segment(msgs, known, t)
  {
    var x := Extra(known, |msgs|);
    if known.0 >= 0 && known.1 > 0 && First(known) <= Last(known, |msgs|) {
      QuoteSplit(msgs, 0, x, Last(known, |msgs|) + 1, t);
    }
  }

  /** A group with known ranges is quoted as they span exactly when no range is unknown or the
    * messages an unknown one adds, from the first message on, say nothing. */
  lemma GroupIsKnownSpanIff(msgs: seq<Message>, unit: seq<Range>, t: Text)
    requires Known(unit) != []
    ensures var known := Span(Known(unit), |Known(unit)|);
      Segment(msgs, Span(unit, |unit|), t) == Segment(msgs, known, t) <==>
        (0, 0) !in unit || QuoteAll(msgs, 0, Extra(known, |msgs|), t) == []
  {
    var known := Span(Known(unit), |Known(unit)|);
    if (0, 0) in unit {
      SpanWithUnknown(unit);
      SegmentStretched(msgs, known, t);
      assert |Segment(msgs, Span(unit, |unit|), t)| ==
        |QuoteAll(msgs, 0, Extra(known, |msgs|), t)| + |Segment(msgs, known, t)|;
    } else {
      KeptAll(unit, |unit|);
      assert unit[..|unit|] == unit;
    }
  }
}
