/** Token accounting: a per-day accumulator flushed into one row per day.
  *
  * The clock is read by each call, and each write to the table may fail; both are parameters.
  */
module Usage {

  type Day = nat

  datatype Tokens = Tokens(input: int, output: int, cacheHit: int)

  const ZERO := Tokens(0, 0, 0)

  function Plus(a: Tokens, b: Tokens): Tokens {
    Tokens(a.input + b.input, a.output + b.output, a.cacheHit + b.cacheHit)
  }

  lemma PlusZero(a: Tokens)
    ensures Plus(a, ZERO) == a && Plus(ZERO, a) == a
  {
    match a
    case Tokens(i, o, c) =>
  }

  type Rows = map<Day, Tokens>

  function Row(rows: Rows, day: Day): Tokens {
    if day in rows then rows[day] else ZERO
  }

  /** The additive upsert; a write that fails changes nothing. */
  function Upsert(rows: Rows, day: Day, u: Tokens, ok: bool): Rows {
    if ok then rows[day := Plus(Row(rows, day), u)] else rows
  }

  datatype State = State(today: Day, acc: Tokens, dirty: bool, rows: Rows)

  /** One call: the day its clock shows and whether its write, if any, succeeds.  Asking for
    * today's usage reads the clock a second time after a change of day. */
  datatype Event =
    | Add(u: Tokens, day: Day, ok: bool)
    | Flush(day: Day, ok: bool)
    | AskToday(day: Day, again: Day)

  function Apply(batched: bool, s: State, e: Event): State {
    match e
    case Add(u, day, ok) =>
      var acc := Plus(if day != s.today then ZERO else s.acc, u);
      State(day, acc, true, if batched then s.rows else Upsert(s.rows, day, u, ok))
    case Flush(day, ok) =>
      if !s.dirty then s
      else if day != s.today then State(day, ZERO, false, s.rows)
      else State(day, ZERO, false, Upsert(s.rows, day, s.acc, ok))
    case AskToday(day, again) =>
      if day != s.today then State(again, ZERO, s.dirty, s.rows) else s
  }

  // ---------------------------------------------------------------------------------
  // The tracker

  class Table {
    var rows: Rows

    constructor ()
      ensures rows == map[]
    {
      rows := map[];
    }

    method AddUsage(day: Day, u: Tokens, ok: bool)
      modifies this
      ensures rows == Upsert(old(rows), day, u, ok)
    {
      if !ok { return; }
      PlusZero(u);
      if day in rows {
        rows := rows[day := Plus(rows[day], u)];
      } else {
        rows := rows[day := u];
      }
    }
  }

  class Tracker {
    var today: Day
    var acc: Tokens
    var dirty: bool
    const batched: bool
    const table: Table

    function Abstract(): State
      reads this, table
    {
      State(today, acc, dirty, table.rows)
    }

    constructor (table: Table, batched: bool, day: Day)
      ensures this.batched == batched && this.table == table
      ensures Abstract() == State(day, ZERO, false, table.rows)
    {
      today, acc, dirty := day, ZERO, false;
      this.batched, this.table := batched, table;
    }

    /** A tick of the timer. */
    method Flush(day: Day, ok: bool)
      requires batched
      modifies this, table
      ensures Abstract() == Apply(batched, old(Abstract()), Event.Flush(day, ok))
    {
      if !dirty { return; }
      if day != today {
        today, acc, dirty := day, ZERO, false;
        return;
      }
      table.AddUsage(day, acc, ok);
      acc, dirty := ZERO, false;
    }

    /** Closing writes what is pending; without a timer it does nothing. */
    method Close(day: Day, ok: bool)
      modifies this, table
      ensures Abstract() == if batched then Apply(batched, old(Abstract()), Event.Flush(day, ok)) else old(Abstract())
    {
      if !batched { return; }
      Flush(day, ok);
    }

    method Add(u: Tokens, day: Day, ok: bool)
      modifies this, table
      ensures Abstract() == Apply(batched, old(Abstract()), Event.Add(u, day, ok))
    {
      if day != today {
        today, acc := day, ZERO;
      }
      acc := Plus(acc, u);
      dirty := true;
      if !batched {
        table.AddUsage(day, u, ok);
      }
    }

    method Today(day: Day, again: Day) returns (d: Day, u: Tokens)
      modifies this
      ensures Abstract() == Apply(batched, old(Abstract()), AskToday(day, again))
      ensures d == today && u == acc
    {
      if day != today {
        today, acc := again, ZERO;
      }
      d, u := today, acc;
    }
  }

  // ---------------------------------------------------------------------------------
  // Runs

  /** Only a batching tracker has a timer. */
  predicate Occurs(batched: bool, e: Event) {
    e.Flush? ==> batched
  }

  predicate Possible(batched: bool, evs: seq<Event>, n: nat)
    requires n <= |evs|
    decreases n
  {
    n == 0 || (Possible(batched, evs, n - 1) && Occurs(batched, evs[n-1]))
  }

  function Start(day: Day): State {
    State(day, ZERO, false, map[])
  }

  function After(batched: bool, day: Day, evs: seq<Event>, n: nat): State
    requires n <= |evs|
    decreases n
  {
    if n == 0 then Start(day) else Apply(batched, After(batched, day, evs, n - 1), evs[n-1])
  }

  /** What one call adds on day `d`. */
  function Adds(e: Event, d: Day): Tokens {
    if e.Add? && e.day == d then e.u else ZERO
  }

  /** What was added on day `d` by the first `n` calls. */
  function Added(evs: seq<Event>, n: nat, d: Day): Tokens
    requires n <= |evs|
    decreases n
  {
    if n == 0 then ZERO else Plus(Added(evs, n - 1, d), Adds(evs[n-1], d))
  }

  /** What one call drops of day `d`: the accumulator when the day has changed under it, and
    * whatever a failed write carried. */
  function Drops(batched: bool, s: State, e: Event, d: Day): Tokens {
    if !batched then (if e.Add? && e.day == d && !e.ok then e.u else ZERO)
    else match e
      case Add(u, day, ok) => if day != s.today == d then s.acc else ZERO
      case Flush(day, ok) => if s.dirty && s.today == d && (day != s.today || !ok) then s.acc else ZERO
      case AskToday(day, again) => if day != s.today == d then s.acc else ZERO
  }

  function Dropped(batched: bool, day: Day, evs: seq<Event>, n: nat, d: Day): Tokens
    requires n <= |evs|
    decreases n
  {
    if n == 0 then ZERO
    else Plus(Dropped(batched, day, evs, n - 1, d), Drops(batched, After(batched, day, evs, n - 1), evs[n-1], d))
  }

  /** What day `d` has pending in the accumulator. */
  function Pending(batched: bool, s: State, d: Day): Tokens {
    if batched && s.today == d then s.acc else ZERO
  }

  /** `total` is made up of `a`, `b` and `c`. */
  predicate MadeOf(total: Tokens, a: Tokens, b: Tokens, c: Tokens) {
    && total.input == a.input + b.input + c.input
    && total.output == a.output + b.output + c.output
    && total.cacheHit == a.cacheHit + b.cacheHit + c.cacheHit
  }

  lemma MadeOfOne(total: Tokens, a: Tokens, b: Tokens)
    ensures MadeOf(total, a, ZERO, ZERO) ==> total == a
    ensures MadeOf(total, a, b, ZERO) ==> total == Plus(a, b) && (total == a <==> b == ZERO)
  {
    match total
    case Tokens(_, _, _) =>
      match a
      case Tokens(_, _, _) =>
        match b
        case Tokens(_, _, _) =>
  }

  lemma StepBalances(batched: bool, s: State, e: Event, d: Day, added: Tokens, dropped: Tokens)
    requires Occurs(batched, e)
    requires batched && !s.dirty ==> s.acc == ZERO
    requires MadeOf(added, Row(s.rows, d), Pending(batched, s, d), dropped)
    ensures var t := Apply(batched, s, e);
      && (batched && !t.dirty ==> t.acc == ZERO)
      && MadeOf(Plus(added, Adds(e, d)),
                Row(t.rows, d), Pending(batched, t, d), Plus(dropped, Drops(batched, s, e, d)))
  {
  }

  /** On every run, for every day: what was added is in the day's row, still pending, or was
    * dropped at a change of day or by a failed write. */
  lemma {:induction false} NothingElseIsLost(batched: bool, day: Day, evs: seq<Event>, n: nat, d: Day)
    requires n <= |evs| && Possible(batched, evs, n)
    ensures var s := After(batched, day, evs, n);
      && (batched && !s.dirty ==> s.acc == ZERO)
      && MadeOf(Added(evs, n, d), Row(s.rows, d), Pending(batched, s, d), Dropped(batched, day, evs, n, d))
    decreases n
  {
    if n > 0 {
      NothingElseIsLost(batched, day, evs, n - 1, d);
      StepBalances(batched, After(batched, day, evs, n - 1), evs[n-1], d,
                   Added(evs, n - 1, d), Dropped(batched, day, evs, n - 1, d));
    }
  }

  predicate Counts(u: Tokens) {
    u.input >= 0 && u.output >= 0 && u.cacheHit >= 0
  }

  predicate AllCount(evs: seq<Event>, n: nat)
    requires n <= |evs|
    decreases n
  {
    n == 0 || (AllCount(evs, n - 1) && (evs[n-1].Add? ==> Counts(evs[n-1].u)))
  }

  lemma {:induction false} PendingCounts(batched: bool, day: Day, evs: seq<Event>, n: nat, d: Day)
    requires n <= |evs| && AllCount(evs, n)
    ensures Counts(After(batched, day, evs, n).acc) && Counts(Dropped(batched, day, evs, n, d))
    decreases n
  {
    if n > 0 { PendingCounts(batched, day, evs, n - 1, d); }
  }

  /** No row ever exceeds what was added on its day, whatever the clock and the writes do. */
  lemma RowsNeverExceed(batched: bool, day: Day, evs: seq<Event>, n: nat, d: Day)
    requires n <= |evs| && Possible(batched, evs, n) && AllCount(evs, n)
    ensures var row, added := Row(After(batched, day, evs, n).rows, d), Added(evs, n, d);
      row.input <= added.input && row.output <= added.output && row.cacheHit <= added.cacheHit
  {
    NothingElseIsLost(batched, day, evs, n, d);
    PendingCounts(batched, day, evs, n, d);
  }

  // ---------------------------------------------------------------------------------
  // A clock that never runs backwards, and writes that succeed

  predicate Writes(e: Event) {
    (e.Add? || e.Flush?) ==> e.ok
  }

  ghost predicate Steady(batched: bool, day: Day, evs: seq<Event>, n: nat)
    requires n <= |evs|
    decreases n
  {
    n == 0 || (Steady(batched, day, evs, n - 1) && Occurs(batched, evs[n-1]) && Writes(evs[n-1])
               && Onward(After(batched, day, evs, n - 1), evs[n-1]))
  }

  predicate Onward(s: State, e: Event) {
    s.today <= e.day && (e.AskToday? ==> e.day <= e.again)
  }

  lemma {:induction false} SteadyIsPossible(batched: bool, day: Day, evs: seq<Event>, n: nat)
    requires n <= |evs| && Steady(batched, day, evs, n)
    ensures Possible(batched, evs, n)
    decreases n
  {
    if n > 0 { SteadyIsPossible(batched, day, evs, n - 1); }
  }

  lemma {:induction false} SteadyBefore(batched: bool, day: Day, evs: seq<Event>, m: nat, n: nat)
    requires m <= n <= |evs| && Steady(batched, day, evs, n)
    ensures Steady(batched, day, evs, m)
    decreases n
  {
    if m < n { SteadyBefore(batched, day, evs, m, n - 1); }
  }

  predicate AllWritten(evs: seq<Event>, n: nat)
    requires n <= |evs|
    decreases n
  {
    n == 0 || (AllWritten(evs, n - 1) && Writes(evs[n-1]))
  }

  /** Synchronous mode: each row is its day's total, whatever the clock does. */
  lemma SyncRowsAreExact(day: Day, evs: seq<Event>, n: nat, d: Day)
    requires n <= |evs| && Possible(false, evs, n) && AllWritten(evs, n)
    ensures Row(After(false, day, evs, n).rows, d) == Added(evs, n, d)
  {
    SyncDropsNothing(day, evs, n, d);
    NothingElseIsLost(false, day, evs, n, d);
    MadeOfOne(Added(evs, n, d), Row(After(false, day, evs, n).rows, d), ZERO);
  }

  lemma SyncStep(s: State, e: Event, d: Day)
    requires Writes(e)
    ensures Drops(false, s, e, d) == ZERO
  {
  }

  lemma {:induction false} SyncDropsNothing(day: Day, evs: seq<Event>, n: nat, d: Day)
    requires n <= |evs| && AllWritten(evs, n)
    ensures Dropped(false, day, evs, n, d) == ZERO
    decreases n
  {
    if n > 0 {
      SyncDropsNothing(day, evs, n - 1, d);
      SyncStep(After(false, day, evs, n - 1), evs[n-1], d);
      PlusZero(ZERO);
    }
  }

  /** With a clock that never runs backwards, whatever the writes do. */
  ghost predicate Forward(batched: bool, day: Day, evs: seq<Event>, n: nat)
    requires n <= |evs|
    decreases n
  {
    n == 0 || (Forward(batched, day, evs, n - 1) && Occurs(batched, evs[n-1])
               && Onward(After(batched, day, evs, n - 1), evs[n-1]))
  }

  /** What is reported for day `d`: nothing yet for a day to come. */
  function Reported(s: State, d: Day): Tokens {
    if s.today == d then s.acc else ZERO
  }

  lemma SyncTodayStep(s: State, e: Event, d: Day, added: Tokens)
    requires Occurs(false, e) && Onward(s, e) && d >= Apply(false, s, e).today
    requires MadeOf(added, Reported(s, d), ZERO, ZERO)
    ensures MadeOf(Plus(added, Adds(e, d)), Reported(Apply(false, s, e), d), ZERO, ZERO)
  {
  }

  lemma TodayOnward(batched: bool, s: State, e: Event)
    requires Onward(s, e)
    ensures s.today <= Apply(batched, s, e).today
  {
  }

  lemma {:induction false} ReportedIsAdded(day: Day, evs: seq<Event>, n: nat, d: Day)
    requires n <= |evs| && Forward(false, day, evs, n) && d >= After(false, day, evs, n).today
    ensures MadeOf(Added(evs, n, d), Reported(After(false, day, evs, n), d), ZERO, ZERO)
    decreases n
  {
    if n > 0 {
      TodayOnward(false, After(false, day, evs, n - 1), evs[n-1]);
      ReportedIsAdded(day, evs, n - 1, d);
      SyncTodayStep(After(false, day, evs, n - 1), evs[n-1], d, Added(evs, n - 1, d));
    }
  }

  /** Synchronous mode: what is reported for today is all that was added today. */
  lemma SyncTodayIsExact(day: Day, evs: seq<Event>, n: nat)
    requires n <= |evs| && Forward(false, day, evs, n)
    ensures var s := After(false, day, evs, n); s.acc == Added(evs, n, s.today)
  {
    var s := After(false, day, evs, n);
    ReportedIsAdded(day, evs, n, s.today);
    MadeOfOne(Added(evs, n, s.today), s.acc, ZERO);
  }

  lemma TodayStep(s: State, e: Event, d: Day)
    requires Writes(e) && Onward(s, e) && d >= Apply(true, s, e).today
    ensures d >= s.today && Drops(true, s, e, d) == ZERO
  {
  }

  /** Nothing of the current day, or of a later one, is dropped. */
  lemma {:induction false} TodayIsKept(day: Day, evs: seq<Event>, n: nat, d: Day)
    requires n <= |evs| && Steady(true, day, evs, n) && d >= After(true, day, evs, n).today
    ensures Dropped(true, day, evs, n, d) == ZERO
    decreases n
  {
    if n > 0 {
      TodayStep(After(true, day, evs, n - 1), evs[n-1], d);
      TodayIsKept(day, evs, n - 1, d);
      PlusZero(ZERO);
    }
  }

  /** Batched mode: the current day's row and accumulator together are its total. */
  lemma TodayIsExact(day: Day, evs: seq<Event>, n: nat)
    requires n <= |evs| && Steady(true, day, evs, n)
    ensures var s := After(true, day, evs, n); Added(evs, n, s.today) == Plus(Row(s.rows, s.today), s.acc)
  {
    var s := After(true, day, evs, n);
    TodayIsKept(day, evs, n, s.today);
    SteadyIsPossible(true, day, evs, n);
    NothingElseIsLost(true, day, evs, n, s.today);
    MadeOfOne(Added(evs, n, s.today), Row(s.rows, s.today), s.acc);
  }

  /** Nothing of day `d` is dropped from call `m` on, while it is the current day. */
  lemma {:induction false} KeptSince(day: Day, evs: seq<Event>, m: nat, n: nat, d: Day)
    requires m <= n <= |evs| && Forward(true, day, evs, n) && WritesFrom(evs, m, n)
    requires d >= After(true, day, evs, n).today
    ensures Dropped(true, day, evs, n, d) == Dropped(true, day, evs, m, d)
    decreases n
  {
    if m < n {
      TodayStep(After(true, day, evs, n - 1), evs[n-1], d);
      KeptSince(day, evs, m, n - 1, d);
      PlusZero(Dropped(true, day, evs, m, d));
    }
  }

  predicate WritesFrom(evs: seq<Event>, m: nat, n: nat)
    requires m <= n <= |evs|
    decreases n
  {
    m == n || (WritesFrom(evs, m, n - 1) && Writes(evs[n-1]))
  }

  lemma FailedFlush(s: State, e: Event)
    requires e.Flush? && !e.ok && e.day == s.today && (!s.dirty ==> s.acc == ZERO)
    ensures Drops(true, s, e, s.today) == s.acc && Apply(true, s, e).today == s.today
  {
  }

  lemma {:induction false} ForwardIsPossible(batched: bool, day: Day, evs: seq<Event>, n: nat)
    requires n <= |evs| && Forward(batched, day, evs, n)
    ensures Possible(batched, evs, n)
    decreases n
  {
    if n > 0 { ForwardIsPossible(batched, day, evs, n - 1); }
  }

  /** A flush that fails loses what it carried for good: from then on the day's row and
    * accumulator are short of the day's total by just that. */
  lemma FailedFlushIsLost(day: Day, evs: seq<Event>, m: nat, n: nat)
    requires m < n <= |evs| && Forward(true, day, evs, n) && WritesFrom(evs, 0, m) && WritesFrom(evs, m + 1, n)
    requires evs[m].Flush? && !evs[m].ok && evs[m].day == After(true, day, evs, m).today
    requires After(true, day, evs, n).today == evs[m].day
    ensures var s, lost := After(true, day, evs, n), After(true, day, evs, m).acc;
      MadeOf(Added(evs, n, s.today), Row(s.rows, s.today), s.acc, lost)
  {
    var d := evs[m].day;
    ForwardIsPossible(true, day, evs, n);
    NothingElseIsLost(true, day, evs, n, d);
    ForwardBefore(true, day, evs, m, n);
    ForwardIsPossible(true, day, evs, m);
    NothingElseIsLost(true, day, evs, m, d);
    KeptSince(day, evs, m + 1, n, d);
    KeptSince(day, evs, 0, m, d);
    FailedFlush(After(true, day, evs, m), evs[m]);
    PlusZero(After(true, day, evs, m).acc);
  }

  lemma {:induction false} ForwardBefore(batched: bool, day: Day, evs: seq<Event>, m: nat, n: nat)
    requires m <= n <= |evs| && Forward(batched, day, evs, n)
    ensures Forward(batched, day, evs, m)
    decreases n
  {
    if m < n { ForwardBefore(batched, day, evs, m, n - 1); }
  }

  /** A day that is over gets no more tokens and its row no more writes. */
  lemma PastDayStays(s: State, e: Event, d: Day)
    requires Writes(e) && Onward(s, e) && d < s.today
    ensures d < Apply(true, s, e).today && Row(Apply(true, s, e).rows, d) == Row(s.rows, d)
    ensures Drops(true, s, e, d) == ZERO && !(e.Add? && e.day == d)
  {
  }

  /** When the day changes, what is pending is dropped. */
  lemma DayEnds(s: State, e: Event)
    requires Writes(e) && Onward(s, e) && s.today < Apply(true, s, e).today && (!s.dirty ==> s.acc == ZERO)
    ensures Row(Apply(true, s, e).rows, s.today) == Row(s.rows, s.today) && !(e.Add? && e.day == s.today)
  {
  }

  /** Once a day is over its row is settled, short by what was pending when it ended. */
  lemma {:induction false} PastDayIsShortBy(day: Day, evs: seq<Event>, m: nat, n: nat)
    requires m < n <= |evs| && Steady(true, day, evs, n)
    requires After(true, day, evs, m).today < After(true, day, evs, m + 1).today
    ensures var s := After(true, day, evs, m);
      && s.today < After(true, day, evs, n).today
      && MadeOf(Added(evs, n, s.today), Row(After(true, day, evs, n).rows, s.today), s.acc, ZERO)
    decreases n
  {
    var s := After(true, day, evs, m);
    var prev := After(true, day, evs, n - 1);
    if n == m + 1 {
      TodayIsKept(day, evs, m, s.today);
      SteadyIsPossible(true, day, evs, m);
      NothingElseIsLost(true, day, evs, m, s.today);
      DayEnds(s, evs[m]);
    } else {
      PastDayIsShortBy(day, evs, m, n - 1);
      PastDayStays(prev, evs[n-1], s.today);
    }
  }

  /** A past day's row is its total exactly when nothing was pending as the day ended. */
  lemma PastDayIsExactIff(day: Day, evs: seq<Event>, m: nat, n: nat)
    requires m < n <= |evs| && Steady(true, day, evs, n)
    requires After(true, day, evs, m).today < After(true, day, evs, m + 1).today
    ensures var s := After(true, day, evs, m);
      Added(evs, n, s.today) == Row(After(true, day, evs, n).rows, s.today) <==> s.acc == ZERO
  {
    var s := After(true, day, evs, m);
    PastDayIsShortBy(day, evs, m, n);
    MadeOfOne(Added(evs, n, s.today), Row(After(true, day, evs, n).rows, s.today), s.acc);
  }
}
