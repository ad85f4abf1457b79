/** The scheduler's tick: internal/core/scheduler.go over the runtime and run tables.
    Table writes succeed; what the agents do is an input. */
module SchedulerTick {
  import opened Text
  import opened Calendar
  import opened Cron

  /** A registry entry: its fingerprint (path, hash and skill files), and its cron
      expression as parsed, if it parses. */
  datatype Entry = Entry(
    id: string, fingerprint: string, cron: Option<Schedule>, offset: int, enabled: bool, hasSchedule: bool)

  /** Windows are minutes of UTC. */
  datatype Runtime = Runtime(fingerprint: string, next: Option<int>, last: Option<int>)

  /** How one agent run went, and when it was over. */
  datatype RunStatus = RunDone | RunPartial | RunFailed | RunCancelled

  datatype RunEnd = RunEnd(finished: int, status: RunStatus)

  /** What came of one due schedule: skipped, or run to some end. */
  datatype Outcome = Skipped | Ended(status: RunStatus)

  datatype Run = Run(id: string, outcome: Outcome)

  datatype TickResult = TickResult(
    due: nat, started: nat, skipped: nat, failed: nat, completed: nat, runs: seq<Run>)

  /** A window taken from a schedule, by a skip or by a run that was not cancelled: under
      which registry entry, at which tick, and when it was over. The revision counts how
      often a changed entry had reset the schedule's window before. */
  datatype Use = Use(
    id: string, cron: Schedule, offset: int, window: int, tick: int, finished: int, revision: nat)

  const TWO_DAYS: int := 2 * 24 * 3600

  /** Instants far enough from year 1 for any zone. */
  predicate Placed(e: Entry, now: int) { now >= TWO_DAYS && -DAY < e.offset < DAY }

  /** The window after an instant, if there is one within five years. */
  function NextWindow(c: Schedule, offset: int, after: int): (r: Option<int>)
    requires after >= TWO_DAYS && -DAY < offset < DAY
    ensures r.Some? ==> r.value * 60 > after
  {
    var start := StartOf(after, offset);
    var scan := MinuteScan(c, start, Deadline(start));
    NextIsLater(c, offset, after);
    if scan.Some? then Some(scan.value - offset) else None
  }

  /** The window a new schedule starts with. */
  function FirstWindow(c: Schedule, offset: int, now: int): Option<int>
    requires now >= TWO_DAYS && -DAY < offset < DAY
  {
    if Matches(c, now / 60 + offset) then Some(now / 60) else NextWindow(c, offset, now)
  }

  lemma NextIsLater(c: Schedule, offset: int, after: int)
    requires after >= TWO_DAYS && -DAY < offset < DAY
    ensures var start := StartOf(after, offset);
      var scan := MinuteScan(c, start, Deadline(start));
      start >= 0 && (scan.Some? ==> (scan.value - offset) * 60 > after)
  {
    var start := StartOf(after, offset);
    hide MinuteScan, Deadline;
    assert start >= 0;
    ScanMeaning(c, start, Deadline(start));
  }

  // ---- The windows used ----

  function LastUse(uses: seq<Use>, id: string): (r: Option<Use>)
    ensures r.Some? ==> r.value in uses && r.value.id == id
  {
    if uses == [] then None
    else if uses[|uses| - 1].id == id then Some(uses[|uses| - 1])
    else LastUse(uses[..|uses| - 1], id)
  }

  /** The schedule has a window after the end of this use, so that it could move on. */
  predicate Moves(u: Use) {
    u.finished >= TWO_DAYS && -DAY < u.offset < DAY && NextWindow(u.cron, u.offset, u.finished).Some?
  }

  /** How a window is left behind: for a later one once the schedule moved on or its entry
      changed, and else for itself. */
  predicate Leaves(u: Use, revision: nat, window: int) {
    u.revision <= revision
    && if u.revision < revision || Moves(u) then u.finished < window * 60 else window == u.window
  }

  /** The next use of the same schedule. */
  predicate Follows(u: Use, v: Use) { u.finished <= v.tick && Leaves(u, v.revision, v.window) }

  /** Every window was due when it was used, and each use follows the one before it. */
  predicate History(uses: seq<Use>) {
    uses == [] || (
      var n := |uses| - 1;
      var last := LastUse(uses[..n], uses[n].id);
      && History(uses[..n])
      && uses[n].window * 60 <= uses[n].tick <= uses[n].finished
      && (last.Some? ==> Follows(last.value, uses[n])))
  }

  /** The stored windows are where the uses left them. */
  ghost predicate Ahead(runtimes: map<string, Runtime>, edits: map<string, nat>, uses: seq<Use>) {
    forall id :: LastUse(uses, id).Some? ==>
      && id in runtimes && runtimes[id].next.Some?
      && Leaves(LastUse(uses, id).value, EditsOf(edits, id), runtimes[id].next.value)
  }

  function EditsOf(edits: map<string, nat>, id: string): nat { if id in edits then edits[id] else 0 }

  /** Where the last use stands. */
  lemma {:induction false} LastUseAt(uses: seq<Use>, id: string) returns (q: nat)
    requires LastUse(uses, id).Some?
    ensures q < |uses| && uses[q] == LastUse(uses, id).value
    ensures forall k :: q < k < |uses| ==> uses[k].id != id
    decreases |uses|
  {
    var n := |uses| - 1;
    if uses[n].id == id { q := n; } else { q := LastUseAt(uses[..n], id); }
  }

  lemma {:induction false} LastUseNone(uses: seq<Use>, id: string)
    requires LastUse(uses, id).None?
    ensures forall u :: u in uses ==> u.id != id
    decreases |uses|
  {
    if uses != [] {
      LastUseNone(uses[..|uses| - 1], id);
      assert uses == uses[..|uses| - 1] + [uses[|uses| - 1]];
    }
  }

  /** A window of a schedule with an earlier use, and the use it follows. */
  lemma Previous(uses: seq<Use>, i: nat) returns (q: nat)
    requires History(uses) && uses != [] && i < |uses| - 1 && uses[i].id == uses[|uses| - 1].id
    ensures i <= q < |uses| - 1 && uses[q].id == uses[i].id && Follows(uses[q], uses[|uses| - 1])
    ensures History(uses[..|uses| - 1])
    ensures uses[|uses| - 1].window * 60 <= uses[|uses| - 1].tick <= uses[|uses| - 1].finished
  {
    hide Follows;
    var n := |uses| - 1;
    assert uses[..n][i] == uses[i];
    if LastUse(uses[..n], uses[n].id).None? { LastUseNone(uses[..n], uses[n].id); }
    q := LastUseAt(uses[..n], uses[n].id);
  }

  /** Whatever happens, a schedule never goes back. */
  lemma {:induction false} NeverBack(uses: seq<Use>, i: nat, j: nat)
    requires History(uses) && i < j < |uses| && uses[i].id == uses[j].id
    ensures uses[i].window <= uses[j].window && uses[i].tick <= uses[j].tick && uses[i].finished <= uses[j].tick
    ensures uses[i].revision <= uses[j].revision
    decreases |uses|
  {
    hide Moves;
    var n := |uses| - 1;
    if j < n {
      assert uses[..n][i] == uses[i] && uses[..n][j] == uses[j];
      NeverBack(uses[..n], i, j);
    } else {
      var q := Previous(uses, i);
      DueAt(uses, q);
      DueAt(uses, i);
      if i < q {
        assert uses[..n][i] == uses[i] && uses[..n][q] == uses[q];
        NeverBack(uses[..n], i, q);
      }
    }
  }

  lemma {:induction false} DueAt(uses: seq<Use>, i: nat)
    requires History(uses) && i < |uses|
    ensures uses[i].window * 60 <= uses[i].tick <= uses[i].finished
    decreases |uses|
  {
    hide Follows;
    if i < |uses| - 1 { DueAt(uses[..|uses| - 1], i); }
  }

  /** Each use lies after the end of the one before it. */
  predicate InOrder(uses: seq<Use>) {
    forall i, j :: 0 <= i < j < |uses| && uses[i].id == uses[j].id ==> uses[i].finished < uses[j].window * 60
  }

  predicate Increasing(uses: seq<Use>) {
    forall i, j :: 0 <= i < j < |uses| && uses[i].id == uses[j].id ==> uses[i].window < uses[j].window
  }

  /** Every window that is followed by another one of the unchanged schedule could be
      moved on from. */
  predicate AllMove(uses: seq<Use>) {
    forall i, j :: 0 <= i < j < |uses| && uses[i].id == uses[j].id && uses[i].revision == uses[j].revision ==>
      Moves(uses[i])
  }

  lemma {:induction false} MovesInOrder(uses: seq<Use>)
    requires History(uses) && AllMove(uses)
    ensures InOrder(uses)
    decreases |uses|
  {
    hide Moves;
    if uses != [] {
      var n := |uses| - 1;
      var init := uses[..n];
      MovesInOrder(init);
      forall i, j | 0 <= i < j < |uses| && uses[i].id == uses[j].id ensures uses[i].finished < uses[j].window * 60 {
        if j < n {
          assert init[i].finished < init[j].window * 60;
        } else {
          var q := Previous(uses, i);
          DueAt(uses, q);
          if i < q { assert init[i].finished < init[q].window * 60; }
        }
      }
    }
  }

  lemma {:induction false} IncreasingMoves(uses: seq<Use>)
    requires History(uses) && Increasing(uses)
    ensures AllMove(uses)
    decreases |uses|
  {
    hide Moves;
    if uses != [] {
      var n := |uses| - 1;
      var init := uses[..n];
      IncreasingMoves(init);
      forall i, j | 0 <= i < j < |uses| && uses[i].id == uses[j].id && uses[i].revision == uses[j].revision
        ensures Moves(uses[i])
      {
        if j < n {
          assert init[i].id == init[j].id && init[i].revision == init[j].revision;
        } else {
          var q := Previous(uses, i);
          if i < q {
            NeverBack(uses, i, q);
            assert init[i].id == init[q].id && init[i].revision == init[q].revision;
          } else {
            assert uses[q].window < uses[n].window;
          }
        }
      }
    }
  }

  /** The exact condition for every window to be used once, the windows of a schedule
      strictly increasing: each that is followed by another one of the unchanged schedule
      had a window after its end within five years. */
  lemma UsedOnceIff(uses: seq<Use>)
    requires History(uses)
    ensures Increasing(uses) <==> AllMove(uses)
    ensures InOrder(uses) <==> AllMove(uses)
  {
    hide Moves;
    if AllMove(uses) { MovesInOrder(uses); }
    if AllMove(uses) || InOrder(uses) {
      forall i, j | 0 <= i < j < |uses| && uses[i].id == uses[j].id ensures uses[i].window < uses[j].window {
        DueAt(uses, i);
      }
    }
    if Increasing(uses) { IncreasingMoves(uses); }
  }

  /** Using the stored window continues the history, whether or not the schedule moves on. */
  lemma UseOne(runtimes: map<string, Runtime>, edits: map<string, nat>, uses: seq<Use>, u: Use, after: Runtime)
    requires History(uses) && Ahead(runtimes, edits, uses) && u.id in runtimes && runtimes[u.id].next == Some(u.window)
    requires u.window * 60 <= u.tick <= u.finished && u.revision == EditsOf(edits, u.id)
    requires SettledBefore(uses, u.id, u.tick)
    requires after.next.Some? && if Moves(u) then u.finished < after.next.value * 60 else after == runtimes[u.id]
    ensures History(uses + [u]) && Ahead(runtimes[u.id := after], edits, uses + [u])
  {
    hide Moves;
    var more := uses + [u];
    assert more[..|uses|] == uses;
    forall id | LastUse(more, id).Some?
      ensures id in runtimes[u.id := after] && runtimes[u.id := after][id].next.Some?
      ensures Leaves(LastUse(more, id).value, EditsOf(edits, id), runtimes[u.id := after][id].next.value)
    {
      if id != u.id { assert LastUse(more, id) == LastUse(uses, id); }
    }
  }

  /** The schedule's last use was over by `now`. */
  predicate SettledBefore(uses: seq<Use>, id: string, now: int) {
    LastUse(uses, id).Some? ==> LastUse(uses, id).value.finished <= now
  }

  lemma OthersSettled(uses: seq<Use>, u: Use, id: string)
    requires id != u.id
    ensures LastUse(uses + [u], id) == LastUse(uses, id)
  {
    assert (uses + [u])[..|uses|] == uses;
  }

  // ---- What a tick reports ----

  function Number(runs: seq<Run>, how: Outcome): nat {
    if runs == [] then 0
    else Number(runs[..|runs| - 1], how) + (if runs[|runs| - 1].outcome == how then 1 else 0)
  }

  /** The schedules whose window was used: all but the cancelled runs. */
  function Consumed(runs: seq<Run>): seq<string> {
    if runs == [] then []
    else
      var r := runs[|runs| - 1];
      Consumed(runs[..|runs| - 1]) + UsedUp(r)
  }

  function UsedUp(r: Run): seq<string> { if r.outcome == Ended(RunCancelled) then [] else [r.id] }

  function Ids(uses: seq<Use>): seq<string> {
    if uses == [] then [] else Ids(uses[..|uses| - 1]) + [uses[|uses| - 1].id]
  }

  predicate Counted(t: TickResult) {
    && t.started + t.skipped == |t.runs| && t.skipped == Number(t.runs, Skipped)
    && t.completed == Number(t.runs, Ended(RunDone)) && t.failed == Number(t.runs, Ended(RunFailed))
  }

  lemma {:induction false} ConsumedCount(runs: seq<Run>)
    ensures |Consumed(runs)| == |runs| - Number(runs, Ended(RunCancelled))
  {
    if runs != [] { ConsumedCount(runs[..|runs| - 1]); }
  }

  lemma {:induction false} IdsCount(uses: seq<Use>)
    ensures |Ids(uses)| == |uses|
  {
    if uses != [] { IdsCount(uses[..|uses| - 1]); }
  }

  lemma RunsMore(runs: seq<Run>, r: Run)
    ensures Consumed(runs + [r]) == Consumed(runs) + UsedUp(r)
    ensures forall how :: Number(runs + [r], how) == Number(runs, how) + (if r.outcome == how then 1 else 0)
  {
    assert (runs + [r])[..|runs|] == runs;
  }

  lemma IdsMore(uses: seq<Use>, u: Use, n: nat)
    requires n <= |uses|
    ensures Ids((uses + [u])[n..]) == Ids(uses[n..]) + [u.id]
  {
    assert (uses + [u])[n..] == uses[n..] + [u];
    assert (uses[n..] + [u])[..|uses| - n] == uses[n..];
  }

  // ---- What a tick does to each entry ----

  /** The row of this entry keeps its window. */
  predicate Unchanged(e: Entry, rows: map<string, Runtime>)
    requires e.id in rows
  {
    rows[e.id].fingerprint == e.fingerprint && rows[e.id].next.Some?
  }

  /** The entry can be reconciled: its expression parses and has a next window. */
  predicate Readable(e: Entry, now: int)
    requires Placed(e, now)
  {
    e.cron.Some? && NextWindow(e.cron.value, e.offset, now).Some?
  }

  /** The window the entry has at this tick: the stored one if it is unchanged, the first
      one if it is new, and else the next. */
  function Window(e: Entry, rows: map<string, Runtime>, now: int): Option<int>
    requires Placed(e, now) && Readable(e, now)
  {
    if e.id !in rows then FirstWindow(e.cron.value, e.offset, now)
    else if Unchanged(e, rows) then rows[e.id].next
    else NextWindow(e.cron.value, e.offset, now)
  }

  /** The entry is scheduled, enabled and has a window that is due. */
  predicate Triggers(e: Entry, rows: map<string, Runtime>, now: int)
    requires Placed(e, now)
  {
    && e.hasSchedule && e.enabled && Readable(e, now)
    && Window(e, rows, now).Some? && Window(e, rows, now).value * 60 <= now
  }

  /** It fires, and is skipped or not cancelled. */
  predicate UsesUp(e: Entry, end: RunEnd, rows: map<string, Runtime>, running: set<string>, now: int)
    requires Placed(e, now)
  {
    Triggers(e, rows, now) && (e.id in running || !end.status.RunCancelled?)
  }

  /** When what came of it was over. */
  function Over(e: Entry, end: RunEnd, running: set<string>, now: int): int {
    if e.id in running then now else end.finished
  }

  function OutcomeOf(e: Entry, end: RunEnd, running: set<string>): Outcome {
    if e.id in running then Skipped else Ended(end.status)
  }

  /** The tick fails here: the entry cannot be reconciled, or its window was used and there
      is none after it. */
  predicate Stops(e: Entry, end: RunEnd, rows: map<string, Runtime>, running: set<string>, now: int)
    requires Placed(e, now) && now <= end.finished
  {
    e.hasSchedule &&
    (!Readable(e, now)
     || (UsesUp(e, end, rows, running, now)
         && NextWindow(e.cron.value, e.offset, Over(e, end, running, now)).None?))
  }

  predicate SameRow(a: map<string, Runtime>, b: map<string, Runtime>, id: string) {
    (id in a <==> id in b) && (id in a ==> a[id] == b[id])
  }

  /** The row of the entry after the tick got past it. */
  predicate RowAfter(e: Entry, end: RunEnd, rows: map<string, Runtime>, running: set<string>, now: int,
                     after: map<string, Runtime>)
    requires Placed(e, now) && now <= end.finished
  {
    if !e.hasSchedule then SameRow(rows, after, e.id)
    else
      && Readable(e, now) && e.id in after
      && after[e.id] ==
         if UsesUp(e, end, rows, running, now) then
           var over := Over(e, end, running, now);
           Runtime(e.fingerprint, NextWindow(e.cron.value, e.offset, over), Some(over))
         else Reconciled(e, rows, now)
  }

  /** The row as reconciled: the window it has now, the last run as it was. */
  function Reconciled(e: Entry, rows: map<string, Runtime>, now: int): Runtime
    requires Placed(e, now) && Readable(e, now)
  {
    Runtime(e.fingerprint, Window(e, rows, now), if e.id in rows then rows[e.id].last else None)
  }

  /** The row of the entry the tick failed at. */
  predicate RowStopped(e: Entry, rows: map<string, Runtime>, now: int, after: map<string, Runtime>)
    requires Placed(e, now)
  {
    if !Readable(e, now) then SameRow(rows, after, e.id) else e.id in after && after[e.id] == Reconciled(e, rows, now)
  }

  /** The use of the entry's window. */
  predicate UseFits(u: Use, e: Entry, end: RunEnd, rows: map<string, Runtime>, running: set<string>, now: int)
    requires Placed(e, now)
  {
    && u.id == e.id && u.tick == now && u.finished == Over(e, end, running, now)
    && Readable(e, now) && u.cron == e.cron.value && u.offset == e.offset && Some(u.window) == Window(e, rows, now)
  }

  lemma SameEntry(e: Entry, end: RunEnd, a: map<string, Runtime>, b: map<string, Runtime>, running: set<string>,
                  now: int)
    requires Placed(e, now) && now <= end.finished && SameRow(a, b, e.id)
    ensures Triggers(e, a, now) == Triggers(e, b, now)
    ensures UsesUp(e, end, a, running, now) == UsesUp(e, end, b, running, now)
    ensures Stops(e, end, a, running, now) == Stops(e, end, b, running, now)
    ensures forall after :: RowAfter(e, end, a, running, now, after) == RowAfter(e, end, b, running, now, after)
    ensures forall after :: RowStopped(e, a, now, after) == RowStopped(e, b, now, after)
    ensures forall u :: UseFits(u, e, end, a, running, now) == UseFits(u, e, end, b, running, now)
  {
    hide NextWindow, FirstWindow;
  }

  predicate AllPlaced(registry: seq<Entry>, ends: seq<RunEnd>, now: int) {
    |ends| == |registry| && forall i :: 0 <= i < |registry| ==> Placed(registry[i], now) && now <= ends[i].finished
  }

  lemma OneEndEach(registry: seq<Entry>, ends: seq<RunEnd>, now: int)
    requires AllPlaced(registry, ends, now)
    ensures |ends| == |registry|
  {}

  /** These entries, of the first `n`, were fired: exactly those that trigger. */
  ghost predicate FiredAt(registry: seq<Entry>, rows: map<string, Runtime>, now: int, n: nat, fired: seq<nat>)
    requires n <= |registry| && forall i :: 0 <= i < |registry| ==> Placed(registry[i], now)
  {
    Rising(fired) && forall i :: i in fired <==> 0 <= i < n && Triggers(registry[i], rows, now)
  }

  predicate RunsAre(registry: seq<Entry>, ends: seq<RunEnd>, running: set<string>, fired: seq<nat>, runs: seq<Run>) {
    && |runs| == |fired| && |ends| == |registry|
    && forall m :: 0 <= m < |fired| ==>
         fired[m] < |registry|
         && runs[m] == Run(registry[fired[m]].id, OutcomeOf(registry[fired[m]], ends[fired[m]], running))
  }

  /** The windows of these entries were used: exactly those that use theirs up. */
  ghost predicate UsedAt(registry: seq<Entry>, ends: seq<RunEnd>, rows: map<string, Runtime>, running: set<string>,
                         now: int, n: nat, used: seq<nat>)
    requires AllPlaced(registry, ends, now) && n <= |registry|
  {
    Rising(used) && forall i :: i in used <==> 0 <= i < n && UsesUp(registry[i], ends[i], rows, running, now)
  }

  predicate UsesAre(registry: seq<Entry>, ends: seq<RunEnd>, rows: map<string, Runtime>, running: set<string>,
                    now: int, used: seq<nat>, uses: seq<Use>)
    requires AllPlaced(registry, ends, now)
  {
    && |uses| == |used|
    && forall m :: 0 <= m < |used| ==>
         used[m] < |registry| && UseFits(uses[m], registry[used[m]], ends[used[m]], rows, running, now)
  }

  /** The tick got past the first `n` entries, and their rows are as it leaves them. */
  predicate PassedTo(registry: seq<Entry>, ends: seq<RunEnd>, rows: map<string, Runtime>, running: set<string>,
                     now: int, n: nat, after: map<string, Runtime>)
    requires AllPlaced(registry, ends, now) && n <= |registry|
  {
    forall i :: 0 <= i < n ==>
      !Stops(registry[i], ends[i], rows, running, now) && RowAfter(registry[i], ends[i], rows, running, now, after)
  }

  /** Rows of other schedules than the first `n` entries' stay as they are. */
  ghost predicate OthersKept(registry: seq<Entry>, rows: map<string, Runtime>, n: nat, after: map<string, Runtime>)
    requires n <= |registry|
  {
    forall id :: (forall i :: 0 <= i < n ==> registry[i].id != id) ==> SameRow(rows, after, id)
  }

  lemma OthersMore(registry: seq<Entry>, rows: map<string, Runtime>, i: nat, at: map<string, Runtime>,
                   after: map<string, Runtime>)
    requires i < |registry| && OthersKept(registry, rows, i, at)
    requires forall id :: id != registry[i].id ==> SameRow(at, after, id)
    ensures OthersKept(registry, rows, i + 1, after)
  {
    forall id | forall k :: 0 <= k < i + 1 ==> registry[k].id != id ensures SameRow(rows, after, id) {
      assert registry[i].id != id;
      assert SameRow(rows, at, id) && SameRow(at, after, id);
    }
  }

  lemma EntryOwn(registry: seq<Entry>, rows: map<string, Runtime>, i: nat, at: map<string, Runtime>)
    requires i < |registry| && DistinctIds(registry) && OthersKept(registry, rows, i, at)
    ensures SameRow(rows, at, registry[i].id)
  {}

  lemma PassedMore(registry: seq<Entry>, ends: seq<RunEnd>, rows: map<string, Runtime>, running: set<string>, now: int,
                   i: nat, at: map<string, Runtime>, after: map<string, Runtime>)
    requires AllPlaced(registry, ends, now) && DistinctIds(registry) && i < |registry|
    requires PassedTo(registry, ends, rows, running, now, i, at)
    requires forall id :: id != registry[i].id ==> SameRow(at, after, id)
    ensures PassedTo(registry, ends, rows, running, now, i, after)
  {
    hide Stops, UsesUp, Readable, Window;
    forall k | 0 <= k < i ensures RowAfter(registry[k], ends[k], rows, running, now, after) {
      assert registry[k].id != registry[i].id;
      assert SameRow(at, after, registry[k].id);
    }
  }

  lemma FiredMore(registry: seq<Entry>, rows: map<string, Runtime>, now: int, n: nat, fired: seq<nat>)
    requires n < |registry| && forall i :: 0 <= i < |registry| ==> Placed(registry[i], now)
    requires FiredAt(registry, rows, now, n, fired)
    ensures FiredAt(registry, rows, now, n + 1, if Triggers(registry[n], rows, now) then fired + [n] else fired)
  {
    hide Triggers, Rising;
    assert forall m :: 0 <= m < |fired| ==> fired[m] in fired;
    RisingMore(fired, n);
  }

  lemma UsedMore(registry: seq<Entry>, ends: seq<RunEnd>, rows: map<string, Runtime>, running: set<string>, now: int,
                 n: nat, used: seq<nat>)
    requires AllPlaced(registry, ends, now) && n < |registry|
    requires UsedAt(registry, ends, rows, running, now, n, used)
    ensures UsedAt(registry, ends, rows, running, now, n + 1,
      if UsesUp(registry[n], ends[n], rows, running, now) then used + [n] else used)
  {
    hide UsesUp, Rising;
    assert forall m :: 0 <= m < |used| ==> used[m] in used;
    RisingMore(used, n);
  }

  /** How far a tick is: what it got past, fired and used among the first `n` entries. */
  ghost predicate TickState(registry: seq<Entry>, ends: seq<RunEnd>, rows: map<string, Runtime>, running: set<string>,
                            now: int, n: nat, fired: seq<nat>, used: seq<nat>, runs: seq<Run>, news: seq<Use>,
                            at: map<string, Runtime>)
    requires AllPlaced(registry, ends, now) && n <= |registry|
  {
    && PassedTo(registry, ends, rows, running, now, n, at) && OthersKept(registry, rows, n, at)
    && FiredAt(registry, rows, now, n, fired) && RunsAre(registry, ends, running, fired, runs)
    && UsedAt(registry, ends, rows, running, now, n, used) && UsesAre(registry, ends, rows, running, now, used, news)
  }

  lemma NoneYet(registry: seq<Entry>, ends: seq<RunEnd>, rows: map<string, Runtime>, running: set<string>, now: int)
    requires AllPlaced(registry, ends, now)
    ensures TickState(registry, ends, rows, running, now, 0, [], [], [], [], rows)
  {
    hide Triggers, UsesUp;
  }

  /** The uses of one entry: its own, or none. */
  predicate NewUses(e: Entry, end: RunEnd, rows: map<string, Runtime>, running: set<string>, now: int, before: seq<Use>,
                    after: seq<Use>)
    requires Placed(e, now)
  {
    if UsesUp(e, end, rows, running, now)
    then |after| == |before| + 1 && before <= after && UseFits(after[|before|], e, end, rows, running, now)
    else after == before
  }

  lemma UsesFit(registry: seq<Entry>, ends: seq<RunEnd>, rows: map<string, Runtime>, running: set<string>, now: int,
                n: nat, used: seq<nat>, before: seq<Use>, after: seq<Use>)
    requires AllPlaced(registry, ends, now) && n < |registry|
    requires UsesAre(registry, ends, rows, running, now, used, before)
    requires NewUses(registry[n], ends[n], rows, running, now, before, after)
    ensures UsesAre(registry, ends, rows, running, now,
      if UsesUp(registry[n], ends[n], rows, running, now) then used + [n] else used, after)
  {
    if UsesUp(registry[n], ends[n], rows, running, now) {
      hide UsesUp, UseFits;
      var more := used + [n];
      forall m | 0 <= m < |more|
        ensures more[m] < |registry| && UseFits(after[m], registry[more[m]], ends[more[m]], rows, running, now)
      {
        if m < |used| { assert after[m] == before[m] && more[m] == used[m]; }
      }
    }
  }

  lemma RunsFit(registry: seq<Entry>, ends: seq<RunEnd>, running: set<string>, n: nat, fired: seq<nat>, runs: seq<Run>)
    requires n < |registry| && RunsAre(registry, ends, running, fired, runs)
    ensures RunsAre(registry, ends, running, fired + [n],
      runs + [Run(registry[n].id, OutcomeOf(registry[n], ends[n], running))])
  {
    hide OutcomeOf;
  }

  /** One entry more. */
  lemma StateMore(registry: seq<Entry>, ends: seq<RunEnd>, rows: map<string, Runtime>, running: set<string>, now: int,
                  n: nat, fired: seq<nat>, used: seq<nat>, runs: seq<Run>, news: seq<Use>, at: map<string, Runtime>,
                  after: map<string, Runtime>, more: seq<Use>)
    requires AllPlaced(registry, ends, now) && DistinctIds(registry) && n < |registry|
    requires TickState(registry, ends, rows, running, now, n, fired, used, runs, news, at)
    requires var e, end := registry[n], ends[n];
      && !Stops(e, end, at, running, now) && RowAfter(e, end, at, running, now, after)
      && (forall id :: id != e.id ==> SameRow(at, after, id)) && NewUses(e, end, at, running, now, news, more)
    ensures Triggers(registry[n], at, now) == Triggers(registry[n], rows, now)
    ensures UsesUp(registry[n], ends[n], at, running, now) == UsesUp(registry[n], ends[n], rows, running, now)
    ensures TickState(registry, ends, rows, running, now, n + 1,
      if Triggers(registry[n], at, now) then fired + [n] else fired,
      if UsesUp(registry[n], ends[n], at, running, now) then used + [n] else used,
      if Triggers(registry[n], at, now)
      then runs + [Run(registry[n].id, OutcomeOf(registry[n], ends[n], running))] else runs,
      more, after)
  {
    hide Triggers, UsesUp, Stops, RowAfter, UseFits, PassedTo, OthersKept, FiredAt, RunsAre, UsedAt, UsesAre, NewUses,
      SameRow, OutcomeOf, Placed;
    var e, end := registry[n], ends[n];
    EntryOwn(registry, rows, n, at);
    SameEntry(e, end, rows, at, running, now);
    SameUses(e, end, rows, at, running, now, news, more);
    PassedMore(registry, ends, rows, running, now, n, at, after);
    PassedOne(registry, ends, rows, running, now, n, after);
    OthersMore(registry, rows, n, at, after);
    FiredMore(registry, rows, now, n, fired);
    UsedMore(registry, ends, rows, running, now, n, used);
    UsesFit(registry, ends, rows, running, now, n, used, news, more);
    RunsFit(registry, ends, running, n, fired, runs);
  }

  lemma SameUses(e: Entry, end: RunEnd, a: map<string, Runtime>, b: map<string, Runtime>, running: set<string>,
                 now: int,
                 before: seq<Use>, after: seq<Use>)
    requires Placed(e, now) && now <= end.finished && SameRow(a, b, e.id)
    ensures NewUses(e, end, a, running, now, before, after) == NewUses(e, end, b, running, now, before, after)
  {
    SameEntry(e, end, a, b, running, now);
    hide UsesUp, UseFits, SameRow;
  }

  lemma PassedOne(registry: seq<Entry>, ends: seq<RunEnd>, rows: map<string, Runtime>, running: set<string>, now: int,
                  n: nat, after: map<string, Runtime>)
    requires AllPlaced(registry, ends, now) && n < |registry|
    requires PassedTo(registry, ends, rows, running, now, n, after)
    requires !Stops(registry[n], ends[n], rows, running, now)
    requires RowAfter(registry[n], ends[n], rows, running, now, after)
    ensures PassedTo(registry, ends, rows, running, now, n + 1, after)
  {
    hide Stops, RowAfter;
  }

  /** The state of a tick that failed at entry `n`. */
  lemma StateStop(registry: seq<Entry>, ends: seq<RunEnd>, rows: map<string, Runtime>, running: set<string>, now: int,
                  n: nat, fired: seq<nat>, used: seq<nat>, runs: seq<Run>, news: seq<Use>, at: map<string, Runtime>,
                  after: map<string, Runtime>, more: seq<Use>)
    requires AllPlaced(registry, ends, now) && DistinctIds(registry) && n < |registry|
    requires TickState(registry, ends, rows, running, now, n, fired, used, runs, news, at)
    requires var e, end := registry[n], ends[n];
      && Stops(e, end, at, running, now) && RowStopped(e, at, now, after)
      && (forall id :: id != e.id ==> SameRow(at, after, id)) && NewUses(e, end, at, running, now, news, more)
    ensures Triggers(registry[n], at, now) == Triggers(registry[n], rows, now)
    ensures UsesUp(registry[n], ends[n], at, running, now) == UsesUp(registry[n], ends[n], rows, running, now)
    ensures TickStopped(registry, ends, rows, running, now, n, fired,
      if UsesUp(registry[n], ends[n], at, running, now) then used + [n] else used, runs, more, after)
  {
    hide Triggers, UsesUp, Stops, RowAfter, RowStopped, UseFits, PassedTo, OthersKept, FiredAt, RunsAre, UsedAt,
      UsesAre, NewUses, SameRow, OutcomeOf, Placed;
    var e, end := registry[n], ends[n];
    EntryOwn(registry, rows, n, at);
    SameEntry(e, end, rows, at, running, now);
    SameUses(e, end, rows, at, running, now, news, more);
    PassedMore(registry, ends, rows, running, now, n, at, after);
    OthersMore(registry, rows, n, at, after);
    UsedMore(registry, ends, rows, running, now, n, used);
    UsesFit(registry, ends, rows, running, now, n, used, news, more);
  }

  /** A tick that failed at entry `n`: what it got past before, and what the entry left. */
  ghost predicate TickStopped(registry: seq<Entry>, ends: seq<RunEnd>, rows: map<string, Runtime>, running: set<string>,
                              now: int, n: nat, fired: seq<nat>, used: seq<nat>, runs: seq<Run>, news: seq<Use>,
                              after: map<string, Runtime>)
    requires AllPlaced(registry, ends, now) && n < |registry|
  {
    && PassedTo(registry, ends, rows, running, now, n, after) && OthersKept(registry, rows, n + 1, after)
    && Stops(registry[n], ends[n], rows, running, now) && RowStopped(registry[n], rows, now, after)
    && FiredAt(registry, rows, now, n, fired) && RunsAre(registry, ends, running, fired, runs)
    && UsedAt(registry, ends, rows, running, now, n + 1, used)
    && UsesAre(registry, ends, rows, running, now, used, news)
  }

  predicate DistinctIds(registry: seq<Entry>) {
    forall i, j :: 0 <= i < j < |registry| ==> registry[i].id != registry[j].id
  }

  class SchedulerService {
    var runtimes: map<string, Runtime>

    /** Schedules with a run that is still marked as running. */
    var running: set<string>

    /** The latest instant seen. */
    var clock: int

    ghost var uses: seq<Use>

    /** How often a changed registry entry reset a schedule's window. */
    ghost var edits: map<string, nat>

    constructor ()
      ensures Valid() && runtimes == map[] && uses == [] && running == {} && edits == map[]
    {
      runtimes, running, clock, uses, edits := map[], {}, TWO_DAYS, [], map[];
    }

    ghost predicate Valid()
      reads this
    {
      && clock >= TWO_DAYS
      && History(uses) && Ahead(runtimes, edits, uses)
      && forall u :: u in uses ==> u.finished <= clock
    }

    /** Bring the stored runtime in line with the registry. A schedule seen first starts
        with the current minute if that is a window; a changed entry waits for the next. */
    method Reconcile(e: Entry, now: int) returns (due: Option<bool>)
      requires Valid() && Placed(e, now) && SettledBefore(uses, e.id, now)
      modifies `runtimes, `edits
      ensures Valid()
      ensures due.Some? <==> e.cron.Some? && NextWindow(e.cron.value, e.offset, now).Some?
      ensures due.None? ==> runtimes == old(runtimes)
      ensures due.Some? ==>
        e.id in runtimes && runtimes == old(runtimes)[e.id := runtimes[e.id]] && runtimes[e.id].next.Some?
      ensures due.Some? && e.id !in old(runtimes) ==>
        runtimes[e.id] == Runtime(e.fingerprint, FirstWindow(e.cron.value, e.offset, now), None)
      ensures due.Some? && e.id in old(runtimes) ==> runtimes[e.id] == old(runtimes)[e.id].(
        fingerprint := e.fingerprint,
        next := if Unchanged(e, old(runtimes)) then old(runtimes)[e.id].next
                else NextWindow(e.cron.value, e.offset, now))
      ensures due.Some? ==> due.value == ((e.enabled || e.id in old(runtimes)) && runtimes[e.id].next.value * 60 <= now)
      ensures edits == if due.Some? && e.id in old(runtimes) && old(runtimes)[e.id].fingerprint != e.fingerprint
                       then old(edits)[e.id := EditsOf(old(edits), e.id) + 1] else old(edits)
    {
      hide NextWindow, History, Moves, Matches, MinuteScan, Deadline;
      if e.cron.None? { return None; }
      var c := e.cron.value;
      var nextAfterNow := Next(c, e.offset, now);
      if nextAfterNow.None? { return None; }
      if e.id !in runtimes {
        var next := nextAfterNow;
        StopsAtOnce(c, now / 60 + e.offset);
        var window := CurrentWindow(c, now, e.offset);
        if window.Some? { next := window; }
        runtimes := runtimes[e.id := Runtime(e.fingerprint, next, None)];
        return Some(e.enabled && next.value * 60 <= now);
      }
      var runtime := runtimes[e.id];
      if runtime.fingerprint != e.fingerprint {
        runtime := runtime.(fingerprint := e.fingerprint, next := nextAfterNow);
        edits := edits[e.id := EditsOf(edits, e.id) + 1];
      }
      if runtime.next.None? { runtime := runtime.(next := nextAfterNow); }
      runtimes := runtimes[e.id := runtime];
      return Some(runtime.next.value * 60 <= now);
    }

    method Next(c: Schedule, offset: int, after: int) returns (r: Option<int>)
      requires after >= TWO_DAYS && -DAY < offset < DAY
      ensures r == NextWindow(c, offset, after)
      ensures r.Some? ==> r.value * 60 > after
    {
      NextIsLater(c, offset, after);
      r := NextAfter(c, after, offset);
    }

    ghost function UseOf(e: Entry, now: int, finished: int): Use
      reads this
      requires e.cron.Some? && e.id in runtimes && runtimes[e.id].next.Some?
    {
      Use(e.id, e.cron.value, e.offset, runtimes[e.id].next.value, now, finished, EditsOf(edits, e.id))
    }

    /** `advanceRuntime`: the window is used up whatever happens; the schedule moves on to
        the next one after `finished` if there is one, and else stays where it is. */
    method Advance(e: Entry, now: int, finished: int) returns (ok: bool)
      requires Valid() && Placed(e, now) && e.cron.Some? && e.id in runtimes && runtimes[e.id].next.Some?
      requires runtimes[e.id].next.value * 60 <= now <= finished && SettledBefore(uses, e.id, now)
      modifies `runtimes, `uses, `clock
      ensures Valid() && clock == (if old(clock) < finished then finished else old(clock))
      ensures ok <==> NextWindow(e.cron.value, e.offset, finished).Some?
      ensures uses == old(uses) + [old(UseOf(e, now, finished))]
      ensures runtimes == if !ok then old(runtimes) else old(runtimes)[e.id :=
        old(runtimes)[e.id].(next := NextWindow(e.cron.value, e.offset, finished), last := Some(finished))]
    {
      hide NextWindow, History, Ahead;
      clock := if clock < finished then finished else clock;
      var next := Next(e.cron.value, e.offset, finished);
      ghost var u := UseOf(e, now, finished);
      var runtime := runtimes[e.id];
      if next.Some? { runtime := runtime.(next := next, last := Some(finished)); }
      UseOne(runtimes, edits, uses, u, runtime);
      uses := uses + [u];
      if next.None? {
        assert runtimes[e.id := runtime] == runtimes;
        return false;
      }
      runtimes := runtimes[e.id := runtime];
      return true;
    }

    /** One due schedule: skipped while an earlier run is marked running, else run. A
        cancelled run leaves its window in place and unused. */
    method Fire(e: Entry, now: int, end: RunEnd) returns (ok: bool, outcome: Outcome)
      requires Valid() && Placed(e, now) && e.cron.Some? && e.id in runtimes && runtimes[e.id].next.Some?
      requires runtimes[e.id].next.value * 60 <= now <= end.finished && SettledBefore(uses, e.id, now)
      modifies `runtimes, `uses, `clock
      ensures Valid() && clock >= old(clock)
      ensures outcome == if e.id in running then Skipped else Ended(end.status)
      ensures outcome == Ended(RunCancelled) ==> runtimes == old(runtimes) && uses == old(uses) && ok
      ensures outcome != Ended(RunCancelled) ==>
        var finished := if outcome.Skipped? then now else end.finished;
        && uses == old(uses) + [old(UseOf(e, now, finished))]
        && (ok <==> NextWindow(e.cron.value, e.offset, finished).Some?)
        && runtimes == if !ok then old(runtimes) else old(runtimes)[e.id :=
             old(runtimes)[e.id].(next := NextWindow(e.cron.value, e.offset, finished), last := Some(finished))]
    {
      hide History, Ahead;
      if e.id in running {
        outcome := Skipped;
        ok := Advance(e, now, now);
      } else {
        outcome := Ended(end.status);
        if end.status.RunCancelled? {
          clock := if clock < end.finished then end.finished else clock;
          ok := true;
        } else {
          ok := Advance(e, now, end.finished);
        }
      }
    }

    /** A due schedule is fired and counted. */
    method FireDue(e: Entry, now: int, end: RunEnd, r: TickResult) returns (t: TickResult, ok: bool)
      requires Valid() && Placed(e, now) && e.cron.Some? && e.id in runtimes && runtimes[e.id].next.Some?
      requires runtimes[e.id].next.value * 60 <= now <= end.finished && SettledBefore(uses, e.id, now)
      requires Counted(r) && r.due == |r.runs|
      modifies `runtimes, `uses, `clock
      ensures Valid() && clock >= old(clock) && Counted(t) && t.due == r.due + 1
      ensures t.runs == if ok then r.runs + [Run(e.id, OutcomeOf(e, end, running))] else r.runs
      ensures OutcomeOf(e, end, running) == Ended(RunCancelled) ==>
        runtimes == old(runtimes) && uses == old(uses) && ok
      ensures OutcomeOf(e, end, running) != Ended(RunCancelled) ==>
        var finished := Over(e, end, running, now);
        && uses == old(uses) + [old(UseOf(e, now, finished))]
        && (ok <==> NextWindow(e.cron.value, e.offset, finished).Some?)
        && runtimes == if !ok then old(runtimes) else old(runtimes)[e.id :=
             old(runtimes)[e.id].(next := NextWindow(e.cron.value, e.offset, finished), last := Some(finished))]
    {
      hide History, Ahead, Counted, Number, NextWindow;
      t := r.(due := r.due + 1);
      SameCounts(r, t);
      var outcome;
      ok, outcome := Fire(e, now, end);
      if !ok { return; }
      RunsMore(r.runs, Run(e.id, outcome));
      ghost var before := t;
      if outcome.Skipped? {
        t := t.(skipped := t.skipped + 1);
      } else {
        t := t.(started := t.started + 1);
        match outcome.status {
          case RunDone => t := t.(completed := t.completed + 1);
          case RunFailed => t := t.(failed := t.failed + 1);
          case _ =>
        }
      }
      t := t.(runs := t.runs + [Run(e.id, outcome)]);
      CountMore(before, t, outcome);
    }

    /** One entry of the registry: reconciled, and fired if it is enabled and due. */
    method TickOne(e: Entry, now: int, end: RunEnd, r: TickResult) returns (t: TickResult, ok: bool)
      requires Valid() && Placed(e, now) && now <= end.finished && SettledBefore(uses, e.id, now)
      requires Counted(r) && r.due == |r.runs|
      modifies `runtimes, `uses, `edits, `clock
      ensures Valid() && clock >= old(clock)
      ensures ok <==> !Stops(e, end, old(runtimes), running, now)
      ensures ok ==> RowAfter(e, end, old(runtimes), running, now, runtimes)
      ensures !ok ==> RowStopped(e, old(runtimes), now, runtimes)
      ensures forall id :: id != e.id ==> SameRow(old(runtimes), runtimes, id)
      ensures Counted(t) && t.due == r.due + (if Triggers(e, old(runtimes), now) then 1 else 0)
      ensures t.runs == r.runs +
        if ok && Triggers(e, old(runtimes), now) then [Run(e.id, OutcomeOf(e, end, running))] else []
      ensures NewUses(e, end, old(runtimes), running, now, old(uses), uses)
    {
      t := r;
      if !e.hasSchedule { return t, true; }
      hide History, Ahead, Counted, Number, NextWindow, FirstWindow;
      ghost var rows := runtimes;
      var due := Reconcile(e, now);
      if due.None? { return t, false; }
      assert runtimes[e.id] == Reconciled(e, rows, now);
      assert e.enabled && due.value <==> Triggers(e, rows, now);
      if !e.enabled || !due.value { return t, true; }
      t, ok := FireDue(e, now, end, t);
    }

    lemma AllSettled(registry: seq<Entry>, now: int)
      requires Valid() && clock <= now
      ensures forall m :: 0 <= m < |registry| ==> SettledBefore(uses, registry[m].id, now)
    {}

    lemma FreshNow(registry: seq<Entry>, now: int)
      requires Valid() && clock <= now
      ensures FreshUses(uses, |uses|, registry, 0, now)
    {
      AllSettled(registry, now);
      hide Valid, SettledBefore;
    }

    /** Where the tick is before entry `i`. */
    ghost predicate OnTrack(registry: seq<Entry>, ends: seq<RunEnd>, rows: map<string, Runtime>, now: int, i: nat,
                            n: nat, fired: seq<nat>, used: seq<nat>, r: TickResult)
      reads this
    {
      && AllPlaced(registry, ends, now) && i <= |registry| && n <= |uses|
      && FreshUses(uses, n, registry, i, now)
      && Counted(r) && r.due == |r.runs| && Ids(uses[n..]) == Consumed(r.runs)
      && TickState(registry, ends, rows, running, now, i, fired, used, r.runs, uses[n..], runtimes)
    }

    /** Where it is when it failed at entry `i`. */
    ghost predicate OffTrack(registry: seq<Entry>, ends: seq<RunEnd>, rows: map<string, Runtime>, now: int, i: nat,
                             n: nat, fired: seq<nat>, used: seq<nat>, r: TickResult)
      reads this
    {
      && AllPlaced(registry, ends, now) && i < |registry| && n <= |uses|
      && FreshUses(uses, n, registry, i + 1, now)
      && Counted(r) && r.due == |r.runs| + (if Triggers(registry[i], rows, now) then 1 else 0)
      && Consumed(r.runs) <= Ids(uses[n..]) && |uses| - n <= |Consumed(r.runs)| + 1
      && TickStopped(registry, ends, rows, running, now, i, fired, used, r.runs, uses[n..], runtimes)
    }

    lemma TrackStart(registry: seq<Entry>, ends: seq<RunEnd>, now: int, r: TickResult)
      requires Valid() && clock <= now && AllPlaced(registry, ends, now) && r == TickResult(0, 0, 0, 0, 0, [])
      ensures OnTrack(registry, ends, runtimes, now, 0, |uses|, [], [], r)
    {
      hide Valid, TickState, Ids, Consumed, Number, AllPlaced, Counted, FreshUses;
      NothingYet(uses);
      NoneYet(registry, ends, runtimes, running, now);
      FreshNow(registry, now);
      assert uses[|uses|..] == [];
    }

    lemma TrackEnd(registry: seq<Entry>, ends: seq<RunEnd>, rows: map<string, Runtime>, now: int, i: nat, n: nat,
                   fired: seq<nat>, used: seq<nat>, r: TickResult)
      requires OnTrack(registry, ends, rows, now, i, n, fired, used, r)
      ensures |uses| - n == r.skipped + r.started - Number(r.runs, Ended(RunCancelled))
    {
      hide FreshUses, TickState, Number, Ids, Consumed;
      ConsumedCount(r.runs);
      IdsCount(uses[n..]);
    }

    /** One entry more, with what it means for the tick. */
    method TickNext(registry: seq<Entry>, i: nat, now: int, ends: seq<RunEnd>, r: TickResult,
                    ghost rows: map<string, Runtime>, ghost n: nat, ghost fired: seq<nat>, ghost used: seq<nat>)
        returns (t: TickResult, ok: bool, ghost fired1: seq<nat>, ghost used1: seq<nat>)
      requires Valid() && DistinctIds(registry) && i < |registry| && n <= |uses| && |ends| == |registry|
      requires OnTrack(registry, ends, rows, now, i, n, fired, used, r)
      modifies `runtimes, `uses, `edits, `clock
      ensures Valid() && clock >= old(clock) && old(uses) <= uses
      ensures ok ==> OnTrack(registry, ends, rows, now, i + 1, n, fired1, used1, t)
      ensures !ok ==> OffTrack(registry, ends, rows, now, i, n, fired1, used1, t) && fired1 == fired
    {
      hide Valid, Counted, Consumed, Ids, Number, UsedBy, Triggers, UsesUp, Stops, RowAfter, RowStopped, UseFits,
        TickState, TickStopped, OutcomeOf, Placed, NewUses, SameRow;
      var e := registry[i];
      ghost var before, at := uses, runtimes;
      assert r.runs + [] == r.runs;
      t, ok := TickOne(e, now, ends[i], r);
      UsesMore(registry, i, n, before, uses, r.runs, now) by { UsedByOne(e, ends[i], at, running, now, before, uses); }
      NewUsesFrom(e, ends[i], at, running, now, before, uses, n);
      fired1 := if ok && Triggers(e, at, now) then fired + [i] else fired;
      used1 := if UsesUp(e, ends[i], at, running, now) then used + [i] else used;
      if ok {
        StateMore(registry, ends, rows, running, now, i, fired, used, r.runs, before[n..], at, runtimes, uses[n..]);
      } else {
        StateStop(registry, ends, rows, running, now, i, fired, used, r.runs, before[n..], at, runtimes, uses[n..]);
      }
      CountsMore(e, ends[i], at, running, now, before, uses, n, r, t, ok);
    }

    method SetClock(now: int)
      requires Valid() && clock <= now
      modifies `clock
      ensures Valid() && clock == now
    {
      clock := now;
    }

    /** `Tick`: every scheduled entry of the registry, in order. Exactly the skipped and the
        uncancelled runs use their schedule's window, each schedule at most one; when a
        schedule cannot move on, the tick fails with the window used all the same. */
    method Tick(registry: seq<Entry>, now: int, ends: seq<RunEnd>)
        returns (r: TickResult, ok: bool, ghost fired: seq<nat>, ghost used: seq<nat>, ghost stop: nat)
      requires Valid() && clock <= now && DistinctIds(registry) && AllPlaced(registry, ends, now)
      modifies `runtimes, `uses, `edits, `clock
      ensures Valid() && clock >= now && old(uses) <= uses
      ensures ok ==>
        stop == |registry| && OnTrack(registry, ends, old(runtimes), now, stop, |old(uses)|, fired, used, r)
      ensures !ok ==> OffTrack(registry, ends, old(runtimes), now, stop, |old(uses)|, fired, used, r)
      ensures ok ==> |uses| - |old(uses)| == r.skipped + r.started - Number(r.runs, Ended(RunCancelled))
    {
      hide *;
      ghost var rows, n := runtimes, |uses|;
      OneEndEach(registry, ends, now);
      SetClock(now);
      r := TickResult(0, 0, 0, 0, 0, []);
      fired, used, stop := [], [], 0;
      TrackStart(registry, ends, now, r);
      for i := 0 to |registry|
        invariant Valid() && clock >= now && stop == i && n <= |uses| && old(uses) <= uses && |ends| == |registry|
        invariant OnTrack(registry, ends, rows, now, i, n, fired, used, r)
      {
        var on;
        r, on, fired, used := TickNext(registry, i, now, ends, r, rows, n, fired, used);
        if !on { return r, false, fired, used, stop; }
        stop := i + 1;
      }
      TrackEnd(registry, ends, rows, now, stop, n, fired, used, r);
      return r, true, fired, used, stop;
    }
  }

  lemma UsedByOne(e: Entry, end: RunEnd, rows: map<string, Runtime>, running: set<string>, now: int, before: seq<Use>,
                  after: seq<Use>)
    requires Placed(e, now) && NewUses(e, end, rows, running, now, before, after)
    ensures UsedBy(before, after, e.id, now)
  {
    hide UsesUp, Readable, Window;
  }

  lemma NewUsesFrom(e: Entry, end: RunEnd, rows: map<string, Runtime>, running: set<string>, now: int, before: seq<Use>,
                    after: seq<Use>, n: nat)
    requires Placed(e, now) && NewUses(e, end, rows, running, now, before, after) && n <= |before|
    ensures n <= |after| && before <= after && NewUses(e, end, rows, running, now, before[n..], after[n..])
  {
    hide UsesUp, UseFits;
  }

  /** The ids of the uses and the runs that used a window go on alike. */
  lemma CountsMore(e: Entry, end: RunEnd, rows: map<string, Runtime>, running: set<string>, now: int, before: seq<Use>,
                   after: seq<Use>, n: nat, r: TickResult, t: TickResult, ok: bool)
    requires Placed(e, now) && now <= end.finished && NewUses(e, end, rows, running, now, before, after)
    requires n <= |before| && before <= after && Ids(before[n..]) == Consumed(r.runs)
    requires ok <==> !Stops(e, end, rows, running, now)
    requires Ids(after[n..]) == Ids(before[n..]) + (if after == before then [] else [e.id])
    requires t.runs == r.runs + if ok && Triggers(e, rows, now) then [Run(e.id, OutcomeOf(e, end, running))] else []
    ensures ok ==> Ids(after[n..]) == Consumed(t.runs)
    ensures !ok ==> Consumed(t.runs) <= Ids(after[n..]) && |after| - n <= |Consumed(t.runs)| + 1
  {
    hide Readable, Window, NextWindow, UseFits, Consumed, Ids;
    if ok && Triggers(e, rows, now) {
      RunsMore(r.runs, Run(e.id, OutcomeOf(e, end, running)));
    } else {
      assert t.runs == r.runs;
    }
    IdsCount(after[n..]);
    assert Consumed(r.runs) + [] == Consumed(r.runs);
  }

  /** At most one use more, by this schedule at this tick. */
  predicate UsedBy(before: seq<Use>, after: seq<Use>, id: string, now: int) {
    after == before
    || (|after| == |before| + 1 && before <= after && after[|before|].id == id && after[|before|].tick == now)
  }

  /** The uses since the `n`-th were made at this tick, by different schedules, none of
      them from position `i` of the registry on. */
  predicate FreshUses(uses: seq<Use>, n: nat, registry: seq<Entry>, i: nat, now: int) {
    && (forall k :: n <= k < |uses| ==> uses[k].tick == now)
    && (forall k, m :: n <= k < |uses| && i <= m < |registry| ==> uses[k].id != registry[m].id)
    && (forall k, m :: n <= k < m < |uses| ==> uses[k].id != uses[m].id)
    && (forall m :: i <= m < |registry| ==> SettledBefore(uses, registry[m].id, now))
  }

  lemma UsesMore(registry: seq<Entry>, i: nat, n: nat, before: seq<Use>, after: seq<Use>, runs: seq<Run>, now: int)
    requires i < |registry| && DistinctIds(registry) && n <= |before|
    requires FreshUses(before, n, registry, i, now) && UsedBy(before, after, registry[i].id, now)
    ensures before <= after && FreshUses(after, n, registry, i + 1, now)
    ensures Ids(after[n..]) == Ids(before[n..]) + (if after == before then [] else [registry[i].id])
    ensures var id := registry[i].id;
      forall how :: Consumed(runs + [Run(id, how)]) == Consumed(runs) + UsedUp(Run(id, how))
  {
    hide Ids, Consumed;
    forall how
      ensures Consumed(runs + [Run(registry[i].id, how)]) == Consumed(runs) + UsedUp(Run(registry[i].id, how))
    {
      RunsMore(runs, Run(registry[i].id, how));
    }
    if after != before {
      var u := after[|before|];
      assert after == before + [u];
      IdsMore(before, u, n);
      forall m | i + 1 <= m < |registry| ensures SettledBefore(after, registry[m].id, now) {
        OthersSettled(before, u, registry[m].id);
      }
    }
  }

  lemma NothingYet(uses: seq<Use>)
    ensures Counted(TickResult(0, 0, 0, 0, 0, [])) && Ids(uses[|uses|..]) == Consumed([])
  {
    assert uses[|uses|..] == [];
  }

  lemma SameCounts(a: TickResult, b: TickResult)
    requires Counted(a) && b == a.(due := b.due)
    ensures Counted(b)
  {}

  lemma CountOf(r: TickResult)
    requires Counted(r)
    ensures r.started + r.skipped == |r.runs|
  {}

  lemma CountMore(t: TickResult, r: TickResult, outcome: Outcome)
    requires Counted(t) && |r.runs| == |t.runs| + 1
    requires forall how :: Number(r.runs, how) == Number(t.runs, how) + (if outcome == how then 1 else 0)
    requires r.skipped == t.skipped + (if outcome == Skipped then 1 else 0)
    requires r.started == t.started + (if outcome == Skipped then 0 else 1)
    requires r.completed == t.completed + (if outcome == Ended(RunDone) then 1 else 0)
    requires r.failed == t.failed + (if outcome == Ended(RunFailed) then 1 else 0)
    ensures Counted(r)
  {
    hide Number;
  }

  // ---- A window used twice ----

  /** A schedule that is stuck after its first run uses the same window again, 23 years on:
      the run at midnight was over at six minutes past, and nothing follows then. */
  method LeapDayTwice() returns (svc: SchedulerService)
    ensures fresh(svc) && svc.Valid() && |svc.uses| == 2 && svc.uses[0].id == svc.uses[1].id
    ensures svc.uses[0].window == svc.uses[1].window == LEAP_MIDNIGHT && svc.uses[0].tick < svc.uses[1].tick
    ensures !Moves(svc.uses[0]) && !Increasing(svc.uses)
  {
    LeapSearches();
    hide History, Ahead, Matches, MinuteScan, Deadline;
    var e := Entry("leap", "v1", Some(LEAP_THURSDAY), 0, true, true);
    var midnight, again := LEAP_MIDNIGHT * 60, DayNumber(Date(2047, 3, 1)) * DAY * 60;
    svc := new SchedulerService();
    var due := svc.Reconcile(e, midnight);
    var ok, how := svc.Fire(e, midnight, RunEnd(midnight + 6 * 60, RunDone));
    due := svc.Reconcile(e, again);
    ok, how := svc.Fire(e, again, RunEnd(again, RunDone));
  }
}
