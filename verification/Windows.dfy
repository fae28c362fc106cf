/** Cutting a transcript into windows by user turns. */
module Windows {
  import opened Selection
  import opened Turns

  const DEFAULT_STEP := 5

  function Step(userStep: int): (n: nat)
    ensures n == if userStep > 0 then userStep else 5
  {
    if userStep <= 0 then DEFAULT_STEP else userStep
  }

  function ByUser(): Message -> bool {
    (m: Message) => m.role == User
  }

  /** User turns among the first `n` messages. */
  function Users(turns: seq<Message>, n: nat): nat
    requires n <= |turns|
  {
    |Where(turns, ByUser(), n)|
  }

  /** The first `n` messages end with the k-th user turn. */
  predicate EndsOn(turns: seq<Message>, n: nat, k: nat) {
    0 < n <= |turns| && turns[n-1].role == User && Users(turns, n) == k
  }

  /** `k` steps' worth of user turns. */
  function Times(k: nat, step: nat): nat {
    if k == 0 then 0 else Times(k - 1, step) + step
  }

  lemma {:induction false} TimesIs(k: nat, step: nat)
    ensures Times(k, step) == k * step
  {
    if k > 0 {
      TimesIs(k - 1, step);
      assert (k - 1) * step + step == k * step;
    }
  }

  lemma {:induction false} TimesGrow(i: nat, j: nat, step: nat)
    requires i < j && step > 0
    ensures Times(i, step) < Times(j, step)
    decreases j
  {
    if i < j - 1 { TimesGrow(i, j - 1, step); }
  }

  /** The last windows, as many as the cap allows. */
  function Capped<T>(out: seq<T>, maxWindows: int): seq<T> {
    if maxWindows > 0 && |out| > maxWindows then out[|out|-maxWindows..] else out
  }

  /** The last windows, as many as there are or as the cap allows. */
  lemma CappedAreLast<T>(out: seq<T>, maxWindows: int)
    ensures |Capped(out, maxWindows)| == if 0 < maxWindows < |out| then maxWindows else |out|
    ensures forall j :: 0 <= j < |Capped(out, maxWindows)| ==>
      Capped(out, maxWindows)[j] == out[|out| - |Capped(out, maxWindows)| + j]
  {
  }

  // ---------------------------------------------------------------------------------
  // Growing windows

  /** One prefix per `step` user turns, each ending on the user turn that completes it, and
    * then the whole transcript. */
  ghost predicate PrefixSplit(turns: seq<Message>, step: nat, out: seq<seq<Message>>) {
    && out != [] && out[|out|-1] == turns
    && (forall j :: 0 <= j < |out| - 1 ==> out[j] < turns && EndsOn(turns, |out[j]|, Times(j + 1, step)))
    && (Users(turns, |turns|) < Times(|out|, step) || EndsOn(turns, |turns|, Times(|out|, step)))
  }

  method UserPositions(turns: seq<Message>) returns (pos: seq<nat>)
    ensures pos == Where(turns, ByUser(), |turns|)
  {
    pos := [];
    for i := 0 to |turns|
      invariant pos == Where(turns, ByUser(), i)
    {
      if turns[i].role == User {
        pos := pos + [i];
      }
    }
  }

  method SplitPrefixWindows(turns: seq<Message>, userStep: int, maxWindows: int) returns (out: seq<seq<Message>>)
    ensures turns == [] ==> out == []
    ensures turns != [] ==> exists full :: PrefixSplit(turns, Step(userStep), full) && out == Capped(full, maxWindows)
  {
    var step := if userStep <= 0 then 5 else userStep;
    if |turns| == 0 { return []; }
    var pos := UserPositions(turns);
    if |pos| < step {
      assert PrefixSplit(turns, step, [turns]) && Capped([turns], maxWindows) == [turns];
      return [turns];
    }
    out := [];
    var k := step;
    while k <= |pos|
      invariant k == Times(|out| + 1, step) && StepPrefixes(turns, step, out)
      decreases |pos| - k
    {
      NthPosition(turns, ByUser(), |turns|, k - 1);
      var w := turns[..pos[k-1] + 1];
      StepPrefixesGrow(turns, step, out, w);
      if |out| == 0 || out[|out|-1] != w {
        out := out + [w];
      }
      k := k + step;
    }
    ghost var steps := out;
    if |out| == 0 || out[|out|-1] != turns {
      out := out + [turns];
    }
    PrefixesComplete(turns, step, steps, out);
    ghost var full := out;
    if maxWindows > 0 && |out| > maxWindows {
      out := out[|out|-maxWindows..];
    }
    assert out == Capped(full, maxWindows);
  }

  ghost predicate StepPrefixes(turns: seq<Message>, step: nat, out: seq<seq<Message>>) {
    forall j :: 0 <= j < |out| ==> out[j] <= turns && EndsOn(turns, |out[j]|, Times(j + 1, step))
  }

  /** The window for the next step is never the one before it. */
  lemma StepPrefixesGrow(turns: seq<Message>, step: nat, out: seq<seq<Message>>, w: seq<Message>)
    requires step > 0 && StepPrefixes(turns, step, out) && w <= turns && EndsOn(turns, |w|, Times(|out| + 1, step))
    ensures StepPrefixes(turns, step, out + [w])
    ensures out != [] ==> out[|out|-1] != w
  {
    var more := out + [w];
    forall j | 0 <= j < |more| ensures more[j] <= turns && EndsOn(turns, |more[j]|, Times(j + 1, step)) {
      if j < |out| { assert more[j] == out[j]; }
    }
    TimesGrow(|out|, |out| + 1, step);
  }

  lemma PrefixesComplete(turns: seq<Message>, step: nat, steps: seq<seq<Message>>, out: seq<seq<Message>>)
    requires step > 0 && turns != [] && StepPrefixes(turns, step, steps) &&
      Users(turns, |turns|) < Times(|steps| + 1, step)
    requires out == if steps == [] || steps[|steps|-1] != turns then steps + [turns] else steps
    ensures PrefixSplit(turns, step, out)
  {
    forall j | 0 <= j < |out| - 1 ensures out[j] < turns && EndsOn(turns, |out[j]|, Times(j + 1, step)) {
      assert out[j] == steps[j];
      if out[j] == turns {
        var last := |steps| - 1;
        if j < last {
          TimesGrow(j + 1, last + 1, step);
          UsersGrow(turns, |steps[last]|, |turns|);
        }
      }
    }
  }

  lemma {:induction false} UsersGrow(turns: seq<Message>, m: nat, n: nat)
    requires m <= n <= |turns|
    ensures Users(turns, m) <= Users(turns, n)
    ensures m < n && turns[n-1].role == User ==> Users(turns, m) < Users(turns, n)
    decreases n
  {
    if m < n { UsersGrow(turns, m, n - 1); }
  }

  lemma EndsOnUnique(turns: seq<Message>, m: nat, n: nat, k: nat)
    requires EndsOn(turns, m, k) && EndsOn(turns, n, k)
    ensures m == n
  {
    if m < n { UsersGrow(turns, m, n); }
    if n < m { UsersGrow(turns, n, m); }
  }

  /** There is one such split only. */
  lemma PrefixSplitUnique(turns: seq<Message>, step: nat, a: seq<seq<Message>>, b: seq<seq<Message>>)
    requires step > 0 && PrefixSplit(turns, step, a) && PrefixSplit(turns, step, b)
    ensures a == b
  {
    if |a| < |b| { SplitNotShorter(turns, step, a, b); }
    if |b| < |a| { SplitNotShorter(turns, step, b, a); }
    forall j | 0 <= j < |a| ensures a[j] == b[j] {
      if j < |a| - 1 { EndsOnUnique(turns, |a[j]|, |b[j]|, Times(j + 1, step)); }
    }
  }

  lemma SplitNotShorter(turns: seq<Message>, step: nat, a: seq<seq<Message>>, b: seq<seq<Message>>)
    requires step > 0 && PrefixSplit(turns, step, a) && PrefixSplit(turns, step, b)
    ensures |a| >= |b|
  {
    if |a| < |b| {
      var w := b[|a|-1];
      assert w < turns && EndsOn(turns, |w|, Times(|a|, step));
      UsersGrow(turns, |w|, |turns|);
      if EndsOn(turns, |turns|, Times(|a|, step)) { EndsOnUnique(turns, |w|, |turns|, Times(|a|, step)); }
    }
  }

  /** Each window is a proper prefix of the next, and the last is the whole transcript. */
  ghost predicate GrowingTo(turns: seq<Message>, out: seq<seq<Message>>) {
    && out != [] && out[|out|-1] == turns
    && forall i, j :: 0 <= i < j < |out| ==> out[i] < out[j]
  }

  lemma SplitGrows(turns: seq<Message>, step: nat, full: seq<seq<Message>>)
    requires step > 0 && PrefixSplit(turns, step, full)
    ensures GrowingTo(turns, full)
  {
    forall i, j | 0 <= i < j < |full| ensures full[i] < full[j] {
      if j < |full| - 1 {
        var m, n := |full[i]|, |full[j]|;
        TimesGrow(i + 1, j + 1, step);
        if m >= n { UsersGrow(turns, n, m); }
        assert full[i] == turns[..m] && full[j] == turns[..n];
      }
    }
  }

  /** Also after the cap, which keeps the longest windows. */
  lemma CappedWindowsGrow(turns: seq<Message>, step: nat, full: seq<seq<Message>>, maxWindows: int)
    requires step > 0 && PrefixSplit(turns, step, full)
    ensures GrowingTo(turns, Capped(full, maxWindows))
    ensures maxWindows > 0 ==> |Capped(full, maxWindows)| <= maxWindows
  {
    SplitGrows(turns, step, full);
  }

  /** The rendering of a window is a prefix of that of every later one, and a proper prefix
    * exactly when a message between their ends is rendered. */
  lemma WindowRenderingsGrow(turns: seq<Message>, out: seq<seq<Message>>, i: nat, j: nat, includeTool: bool, t: Text)
    requires Visible(t) && GrowingTo(turns, out) && i < j < |out|
    ensures Snapshot(out[i], includeTool, t) <= Snapshot(out[j], includeTool, t)
    ensures Snapshot(out[i], includeTool, t) < Snapshot(out[j], includeTool, t) <==>
            AnyRendered(out[j], |out[i]|, |out[j]|, includeTool, t)
  {
    SnapshotIsPrefix(out[j], out[i], includeTool, t);
  }

  // ---------------------------------------------------------------------------------
  // Separate windows

  /** The first `n` windows, one after the other. */
  function Joined<T>(out: seq<seq<T>>, n: nat): seq<T>
    requires n <= |out|
    decreases n
  {
    if n == 0 then [] else Joined(out, n - 1) + out[n-1]
  }

  /** A window that ends on its `step`-th user turn. */
  predicate FullGroup(w: seq<Message>, step: nat) {
    EndsOn(w, |w|, step)
  }

  predicate PartGroup(w: seq<Message>, step: nat) {
    w != [] && Users(w, |w|) < step
  }

  /** Windows that follow each other through the whole transcript, all full but perhaps the last. */
  ghost predicate GroupSplit(turns: seq<Message>, step: nat, out: seq<seq<Message>>) {
    && out != [] && Joined(out, |out|) == turns
    && (forall j :: 0 <= j < |out| - 1 ==> FullGroup(out[j], step))
    && (FullGroup(out[|out|-1], step) || PartGroup(out[|out|-1], step))
  }

  lemma {:induction false} JoinedSame<T>(a: seq<seq<T>>, b: seq<seq<T>>, n: nat)
    requires n <= |a| && n <= |b| && forall i :: 0 <= i < n ==> a[i] == b[i]
    ensures Joined(a, n) == Joined(b, n)
    decreases n
  {
    if n > 0 { JoinedSame(a, b, n - 1); }
  }

  lemma JoinedSnoc<T>(out: seq<seq<T>>, w: seq<T>)
    ensures Joined(out + [w], |out| + 1) == Joined(out, |out|) + w
  {
    var more := out + [w];
    JoinedSame(out, more, |out|);
    assert more[|out|] == w;
  }

  /** User turns in a stretch that starts at `o`. */
  lemma UsersInStretch(turns: seq<Message>, o: nat, n: nat)
    requires o <= n <= |turns|
    ensures Users(turns, n) == Users(turns, o) + Users(turns[o..n], n - o)
  {
    SliceIsStretch(turns, o, n);
    WhereInStretch(turns, turns[o..n], ByUser(), o, n - o);
  }

  /** Full windows that follow each other up to `start`. */
  ghost predicate GroupsTo(turns: seq<Message>, step: nat, out: seq<seq<Message>>, start: nat) {
    && start <= |turns| && Users(turns, start) == Times(|out|, step)
    && Joined(out, |out|) == turns[..start]
    && forall j :: 0 <= j < |out| ==> FullGroup(out[j], step)
  }

  lemma NextGroup(turns: seq<Message>, step: nat, out: seq<seq<Message>>, start: nat, end: nat)
    requires step > 0 && GroupsTo(turns, step, out, start) && EndsOn(turns, end, Times(|out| + 1, step))
    ensures start < end && GroupsTo(turns, step, out + [turns[start..end]], end)
  {
    if end <= start { UsersGrow(turns, end, start); }
    var w := turns[start..end];
    assert FullGroup(w, step) by {
      UsersInStretch(turns, start, end);
      assert w[|w|-1] == turns[end-1];
    }
    assert Joined(out + [w], |out| + 1) == turns[..end] by {
      JoinedSnoc(out, w);
      assert turns[..start] + w == turns[..end];
    }
  }

  lemma LastPart(turns: seq<Message>, step: nat, out: seq<seq<Message>>, start: nat, w: seq<Message>)
    requires GroupsTo(turns, step, out, start) && Users(turns, |turns|) < Times(|out| + 1, step)
    requires start < |turns| && w == turns[start..|turns|]
    ensures GroupSplit(turns, step, out + [w])
  {
    UsersInStretch(turns, start, |turns|);
    JoinedSnoc(out, w);
    assert turns[..start] + w == turns;
  }

  lemma LastGroup(turns: seq<Message>, step: nat, out: seq<seq<Message>>, start: nat)
    requires turns != [] && GroupsTo(turns, step, out, start) && Users(turns, |turns|) < Times(|out| + 1, step)
    ensures start < |turns| ==> GroupSplit(turns, step, out + [turns[start..]])
    ensures start == |turns| ==> GroupSplit(turns, step, out)
  {
    if start < |turns| {
      LastPart(turns, step, out, start, turns[start..]);
    } else {
      assert turns[..start] == turns;
      assert out != [];
    }
  }

  method SplitNonPrefixWindows(turns: seq<Message>, userStep: int, maxWindows: int) returns (out: seq<seq<Message>>)
    ensures turns == [] ==> out == []
    ensures turns != [] ==> exists full :: GroupSplit(turns, Step(userStep), full) && out == Capped(full, maxWindows)
  {
    var step := if userStep <= 0 then 5 else userStep;
    if |turns| == 0 { return []; }
    out := CutGroups(turns, step);
    ghost var full := out;
    if maxWindows > 0 && |out| > maxWindows {
      out := out[|out|-maxWindows..];
    }
    assert GroupSplit(turns, step, full) && out == Capped(full, maxWindows);
  }

  method CutGroups(turns: seq<Message>, step: nat) returns (out: seq<seq<Message>>)
    requires step > 0 && turns != []
    ensures GroupSplit(turns, step, out)
  {
    var pos := UserPositions(turns);
    out := [];
    var start := 0;
    var k := step;
    while k <= |pos|
      invariant k == Times(|out| + 1, step) && GroupsTo(turns, step, out, start)
      decreases |pos| - k
    {
      NthPosition(turns, ByUser(), |turns|, k - 1);
      var end := pos[k-1] + 1;
      NextGroup(turns, step, out, start, end);
      out := out + [turns[start..end]];
      start := end;
      k := k + step;
    }
    LastGroup(turns, step, out, start);
    if start < |turns| {
      out := out + [turns[start..]];
    }
  }

  /** Where window j starts. */
  function Offset<T>(out: seq<seq<T>>, j: nat): nat
    requires j <= |out|
  {
    |Joined(out, j)|
  }

  lemma {:induction false} WindowAtOffset<T>(out: seq<seq<T>>, j: nat, n: nat)
    requires j < n <= |out|
    ensures var all, o := Joined(out, n), Offset(out, j);
      o + |out[j]| <= |all| && all[o..o+|out[j]|] == out[j] && all[..o] == Joined(out, j)
    decreases n
  {
    if j < n - 1 {
      WindowAtOffset(out, j, n - 1);
    }
  }

  lemma GroupNotEmpty(turns: seq<Message>, step: nat, out: seq<seq<Message>>, j: nat)
    requires GroupSplit(turns, step, out) && j < |out|
    ensures out[j] != []
  {
  }

  /** Window j starts behind the user turn that completes j steps. */
  lemma {:induction false} OffsetCompletes(turns: seq<Message>, step: nat, out: seq<seq<Message>>, j: nat)
    requires GroupSplit(turns, step, out) && j < |out|
    ensures Offset(out, j) <= |turns| && Users(turns, Offset(out, j)) == Times(j, step)
    ensures j > 0 ==> EndsOn(turns, Offset(out, j), Times(j, step))
    decreases j
  {
    if j > 0 {
      OffsetCompletes(turns, step, out, j - 1);
      FullGroupEnds(turns, step, out, j - 1, out[j-1]);
    }
  }

  lemma FullGroupEnds(turns: seq<Message>, step: nat, out: seq<seq<Message>>, j: nat, w: seq<Message>)
    requires Joined(out, |out|) == turns && j < |out| && w == out[j] && FullGroup(w, step)
    requires Offset(out, j) <= |turns| && Users(turns, Offset(out, j)) == Times(j, step)
    ensures Offset(out, j + 1) <= |turns| && EndsOn(turns, Offset(out, j + 1), Times(j + 1, step))
  {
    var o := Offset(out, j);
    WindowAtOffset(out, j, |out|);
    assert turns[o..o+|w|] == w;
    UsersInStretch(turns, o, o + |w|);
    assert w[|w|-1] == turns[o+|w|-1];
  }

  lemma OffsetsAgree(turns: seq<Message>, step: nat, a: seq<seq<Message>>, b: seq<seq<Message>>, j: nat)
    requires GroupSplit(turns, step, a) && GroupSplit(turns, step, b) && j < |a| && j < |b|
    ensures Offset(a, j) == Offset(b, j) <= |turns|
  {
    OffsetCompletes(turns, step, a, j);
    OffsetCompletes(turns, step, b, j);
    if j > 0 { EndsOnUnique(turns, Offset(a, j), Offset(b, j), Times(j, step)); }
  }

  /** The users of the last window, counted from the start of the transcript. */
  lemma LastWindowEnds(turns: seq<Message>, step: nat, out: seq<seq<Message>>)
    requires GroupSplit(turns, step, out)
    ensures EndsOn(turns, |turns|, Times(|out|, step)) || Users(turns, |turns|) < Times(|out|, step)
  {
    var j := |out| - 1;
    OffsetCompletes(turns, step, out, j);
    if FullGroup(out[j], step) {
      FullGroupEnds(turns, step, out, j, out[j]);
    } else {
      var o := Offset(out, j);
      WindowAtOffset(out, j, |out|);
      assert turns[o..|turns|] == out[j];
      UsersInStretch(turns, o, |turns|);
    }
  }

  lemma GroupsNotShorter(turns: seq<Message>, step: nat, a: seq<seq<Message>>, b: seq<seq<Message>>)
    requires GroupSplit(turns, step, a) && GroupSplit(turns, step, b)
    ensures |a| >= |b|
  {
    if |a| < |b| {
      var o := Offset(b, |a|);
      OffsetCompletes(turns, step, b, |a|);
      LastWindowEnds(turns, step, a);
      assert o < |turns| by {
        WindowAtOffset(b, |a|, |b|);
        GroupNotEmpty(turns, step, b, |a|);
      }
      UsersGrow(turns, o, |turns|);
    }
  }

  lemma WindowsAgree(turns: seq<Message>, step: nat, a: seq<seq<Message>>, b: seq<seq<Message>>, j: nat)
    requires GroupSplit(turns, step, a) && GroupSplit(turns, step, b) && |a| == |b| && j < |a|
    ensures a[j] == b[j]
  {
    var o := Offset(a, j);
    OffsetsAgree(turns, step, a, b, j);
    WindowAtOffset(a, j, |a|);
    WindowAtOffset(b, j, |b|);
    assert |a[j]| == |b[j]| by {
      if j + 1 < |a| { OffsetsAgree(turns, step, a, b, j + 1); }
    }
  }

  /** There is one such split only. */
  lemma GroupSplitUnique(turns: seq<Message>, step: nat, a: seq<seq<Message>>, b: seq<seq<Message>>)
    requires GroupSplit(turns, step, a) && GroupSplit(turns, step, b)
    ensures a == b
  {
    GroupsNotShorter(turns, step, a, b);
    GroupsNotShorter(turns, step, b, a);
    forall j | 0 <= j < |a| ensures a[j] == b[j] { WindowsAgree(turns, step, a, b, j); }
  }

  lemma {:induction false} DroppedWindows<T>(out: seq<seq<T>>, d: nat, n: nat)
    requires d <= n <= |out|
    ensures Joined(out, n) == Joined(out, d) + Joined(out[d..], n - d)
    decreases n
  {
    if d < n {
      DroppedWindows(out, d, n - 1);
      assert out[d..][n-1-d] == out[n-1];
    }
  }

  /** Capped windows cover a suffix of the transcript. */
  lemma CappedGroupsAreSuffix(turns: seq<Message>, step: nat, full: seq<seq<Message>>, maxWindows: int)
    requires GroupSplit(turns, step, full)
    ensures var out := Capped(full, maxWindows); var kept := Joined(out, |out|);
      && |kept| <= |turns| && turns[|turns|-|kept|..] == kept
      && (maxWindows <= 0 || |full| <= maxWindows ==> kept == turns)
      && out != [] && (maxWindows > 0 ==> |out| <= maxWindows)
      && (forall j :: 0 <= j < |out| - 1 ==> FullGroup(out[j], step))
  {
    if maxWindows > 0 && |full| > maxWindows {
      DroppedWindows(full, |full| - maxWindows, |full|);
    }
  }

  // ---------------------------------------------------------------------------------
  // Ranges of a window in the transcript

  /** Turns s to e of a window that starts at `o` are turns of the transcript, and their range
    * there is the window's range moved by `o`: the two are one exactly for `o` zero. */
  lemma RangeIsGlobalIff(turns: seq<Message>, o: nat, w: seq<Message>, includeTool: bool, t: Text, s: nat, e: nat)
    requires StretchOf(turns, w, o) && 1 <= s <= e <= |RenderIndices(w, includeTool, t)|
    ensures var local := MapTurnRange((s, e), RenderIndices(w, includeTool, t));
            var before := |Where(turns, Renders(includeTool, t), o)|;
            var global := MapTurnRange((before + s, before + e), RenderIndices(turns, includeTool, t));
      && before + e <= |RenderIndices(turns, includeTool, t)|
      && global == (local.0 + o, local.1 + o)
      && (local == global <==> o == 0)
  {
    WindowPositions(turns, o, w, Renders(includeTool, t));
    MapMoved(RenderIndices(turns, includeTool, t), |Where(turns, Renders(includeTool, t), o)|,
      RenderIndices(w, includeTool, t), o, s, e);
  }

  lemma WindowPositions<T>(turns: seq<T>, o: nat, w: seq<T>, p: T -> bool)
    requires StretchOf(turns, w, o)
    ensures |Where(turns, p, o)| + |Where(w, p, |w|)| <= |Where(turns, p, |turns|)|
    ensures forall k :: 0 <= k < |Where(w, p, |w|)| ==>
      Where(turns, p, |turns|)[|Where(turns, p, o)| + k] == Where(w, p, |w|)[k] + o
  {
    WhereInStretch(turns, w, p, o, |w|);
    WherePrefix(turns, p, o + |w|, |turns|);
  }

  lemma MapMoved(all: seq<nat>, before: nat, local: seq<nat>, o: nat, s: nat, e: nat)
    requires before + |local| <= |all| && 1 <= s <= e <= |local|
    requires forall k :: 0 <= k < |local| ==> all[before + k] == local[k] + o
    ensures MapTurnRange((s, e), local) == (local[s-1], local[e-1])
    ensures MapTurnRange((before + s, before + e), all) == (local[s-1] + o, local[e-1] + o)
  {
    assert all[before + (s - 1)] == local[s-1] + o && all[before + (e - 1)] == local[e-1] + o;
  }

  /** Where a window lies in the transcript. */
  lemma WindowStretch(turns: seq<Message>, full: seq<seq<Message>>, i: nat, o: nat)
    requires Joined(full, |full|) == turns && i < |full| && o == Offset(full, i)
    ensures StretchOf(turns, full[i], o)
  {
    WindowAtOffset(full, i, |full|);
    SliceIsStretch(turns, o, o + |full[i]|);
  }

  /** Only the first window starts the transcript. */
  lemma OffsetZeroIff(turns: seq<Message>, step: nat, full: seq<seq<Message>>, i: nat)
    requires GroupSplit(turns, step, full) && i < |full|
    ensures Offset(full, i) == 0 <==> i == 0
  {
    if i > 0 { assert FullGroup(full[i-1], step); }
  }

  /** Whether turns s to e of `w` have the same range in the window as in the transcript, where
    * it starts at `o`. */
  predicate MapsToTranscript(turns: seq<Message>, w: seq<Message>, o: nat, includeTool: bool, t: Text, s: nat, e: nat)
    requires o <= |turns|
  {
    var before := |Where(turns, Renders(includeTool, t), o)|;
    MapTurnRange((s, e), RenderIndices(w, includeTool, t))
      == MapTurnRange((before + s, before + e), RenderIndices(turns, includeTool, t))
  }

  lemma StretchIsGlobalIff(turns: seq<Message>, w: seq<Message>, o: nat, includeTool: bool, t: Text, s: nat, e: nat)
    requires StretchOf(turns, w, o) && 1 <= s <= e <= |RenderIndices(w, includeTool, t)|
    ensures MapsToTranscript(turns, w, o, includeTool, t, s, e) <==> o == 0
  {
    RangeIsGlobalIff(turns, o, w, includeTool, t, s, e);
  }

  lemma CappedAt<T>(full: seq<T>, maxWindows: int, j: nat)
    requires j < |Capped(full, maxWindows)|
    ensures |Capped(full, maxWindows)| <= |full|
    ensures var i := |full| - |Capped(full, maxWindows)| + j;
      Capped(full, maxWindows)[j] == full[i] && (i == 0 <==> j == 0 && (maxWindows <= 0 || |full| <= maxWindows))
  {
  }

  /** Of the separate windows that are kept, only one that starts the transcript maps its turns
    * to transcript positions: the first, and none at all once the cap has dropped a window. */
  lemma GroupRangeIsGlobalIff(turns: seq<Message>, step: nat, full: seq<seq<Message>>, maxWindows: int, j: nat,
                              o: nat, includeTool: bool, t: Text, s: nat, e: nat)
    requires GroupSplit(turns, step, full) && j < |Capped(full, maxWindows)|
    requires o == Offset(full, |full| - |Capped(full, maxWindows)| + j)
    requires 1 <= s <= e <= |RenderIndices(Capped(full, maxWindows)[j], includeTool, t)|
    ensures StretchOf(turns, Capped(full, maxWindows)[j], o)
    ensures MapsToTranscript(turns, Capped(full, maxWindows)[j], o, includeTool, t, s, e) <==>
            j == 0 && (maxWindows <= 0 || |full| <= maxWindows)
  {
    var i := |full| - |Capped(full, maxWindows)| + j;
    CappedAt(full, maxWindows, j);
    WindowStretch(turns, full, i, o);
    OffsetZeroIff(turns, step, full, i);
    StretchIsGlobalIff(turns, full[i], o, includeTool, t, s, e);
  }
}
