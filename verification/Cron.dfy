/** Cron windows: internal/scheduler/cron.go. Instants are whole seconds since the
    start of year 1; a zone is a fixed offset of whole minutes. */
module Cron {
  import opened Text
  import opened Calendar

  datatype Schedule = Schedule(minute: set<int>, hour: set<int>, dom: set<int>, month: set<int>, dow: set<int>)

  const DAY: int := 1440

  /** The date part: all three fields must agree. */
  predicate DayMatches(c: Schedule, n: nat) {
    var d := DateAt(n);
    d.month in c.month && d.day in c.dom && Weekday(n) in c.dow
  }

  predicate TimeMatches(c: Schedule, m: nat) {
    m % 60 in c.minute && m % DAY / 60 in c.hour
  }

  /** Minute `m` of the local clock matches. */
  predicate Matches(c: Schedule, m: nat) {
    TimeMatches(c, m) && DayMatches(c, m / DAY)
  }

  /** The minute a search starts at: the one after the current. */
  function StartOf(after: int, offset: int): int { after / 60 + offset + 1 }

  /** Five years on from `start`, as the calendar normalizes it. */
  function Deadline(start: nat): int {
    var d := DateAt(start / DAY);
    DayNumber(d.(year := d.year + 5)) * DAY + start % DAY
  }

  /** The plain scan: the first matching minute from `m` up to `end`. */
  function MinuteScan(c: Schedule, m: nat, end: int): Option<nat>
    decreases end - m
  {
    if m > end then None else if Matches(c, m) then Some(m) else MinuteScan(c, m + 1, end)
  }

  lemma {:induction false} ScanMeaning(c: Schedule, m: nat, end: int)
    ensures var r := MinuteScan(c, m, end);
      if r.Some? then m <= r.value <= end && Matches(c, r.value) && forall k :: m <= k < r.value ==> !Matches(c, k)
      else forall k :: m <= k <= end ==> !Matches(c, k)
    decreases end - m
  {
    hide Matches;
    if m <= end && !Matches(c, m) { ScanMeaning(c, m + 1, end); }
  }

  lemma {:induction false} ScanFound(c: Schedule, m: nat, end: int, r: nat)
    requires m <= r <= end && Matches(c, r) && forall k :: m <= k < r ==> !Matches(c, k)
    ensures MinuteScan(c, m, end) == Some(r)
    decreases r - m
  {
    hide Matches;
    if m < r { ScanFound(c, m + 1, end, r); }
  }

  lemma {:induction false} ScanNone(c: Schedule, m: nat, end: int)
    requires forall k :: m <= k <= end ==> !Matches(c, k)
    ensures MinuteScan(c, m, end) == None
    decreases end - m
  {
    hide Matches;
    if m <= end { ScanNone(c, m + 1, end); }
  }

  /** The current minute is a window exactly when a search from one minute earlier stops
      at once. */
  method CurrentWindow(c: Schedule, now: int, offset: int) returns (r: Option<int>)
    requires StartOf(now - 60, offset) >= 0
    ensures var start := StartOf(now - 60, offset); r.Some? <==> MinuteScan(c, start, Deadline(start)) == Some(start)
    ensures r.Some? ==>
      r.value * 60 <= now < (r.value + 1) * 60 && r.value + offset >= 0 && Matches(c, r.value + offset)
  {
    var local := now / 60 + offset;
    StopsAtOnce(c, local);
    hide Matches, Deadline, MinuteScan;
    if !Matches(c, local) { return None; }
    return Some(local - offset);
  }

  lemma StopsAtOnce(c: Schedule, start: nat)
    ensures MinuteScan(c, start, Deadline(start)) == Some(start) <==> Matches(c, start)
  {
    StartInYear(start);
    ScanMeaning(c, start, Deadline(start));
    hide Matches, Deadline, DateAt, ValidDate, DaysBeforeYear;
  }

  /** The minutes of one day, from `from` on. */
  method ScanDay(c: Schedule, day: nat, from: nat, deadline: int) returns (r: Option<nat>)
    requires from / DAY == day && DayMatches(c, day)
    ensures r.Some? ==> from <= r.value <= deadline && r.value / DAY == day && Matches(c, r.value)
    ensures r.Some? ==> forall k :: from <= k < r.value ==> !Matches(c, k)
    ensures r.None? ==> forall k :: from <= k <= deadline && k / DAY == day ==> !Matches(c, k)
  {
    var today := DateAt(day).day;
    DayChanges(day);
    hide DayMatches, TimeMatches, DateAt, NextDate, Matches;
    var candidate := from;
    InDay(day, candidate);
    while DateAt(candidate / DAY).day == today && candidate <= deadline
      invariant from <= candidate && day * DAY <= candidate <= (day + 1) * DAY
      invariant candidate / DAY == if candidate < (day + 1) * DAY then day else day + 1
      invariant forall k :: from <= k < candidate ==> !Matches(c, k)
      decreases deadline - candidate
    {
      MatchesInDay(c, day, candidate);
      if TimeMatches(c, candidate) { return Some(candidate); }
      candidate := candidate + 1;
      InDay(day, candidate);
    }
    forall k | from <= k <= deadline && k / DAY == day ensures !Matches(c, k) { InDay(day, k); }
    return None;
  }

  lemma InDay(day: nat, m: nat)
    ensures day * DAY <= m < (day + 1) * DAY <==> m / DAY == day
    ensures m == (day + 1) * DAY ==> m / DAY == day + 1
  {}

  lemma MatchesInDay(c: Schedule, day: nat, m: nat)
    requires m / DAY == day && DayMatches(c, day)
    ensures Matches(c, m) <==> TimeMatches(c, m)
  {}

  lemma DayChanges(day: nat)
    ensures DateAt(day + 1).day != DateAt(day).day
  {
    DateAtNumber(day);
    NextDateNumber(DateAt(day));
  }

  /** `NextAfter`: days first, then the minutes of a matching day. */
  method NextAfter(c: Schedule, after: int, offset: int) returns (r: Option<int>)
    requires StartOf(after, offset) >= 0
    ensures var start := StartOf(after, offset);
      var scan := MinuteScan(c, start, Deadline(start));
      r == if scan.Some? then Some(scan.value - offset) else None
  {
    var start := after / 60 + offset + 1;
    var deadline := Deadline(start);
    var first := start / DAY;
    var day := first;
    hide Deadline, DayMatches;
    while day * DAY <= deadline
      invariant day >= first
      invariant forall k :: start <= k && k / DAY < day && k <= deadline ==> !Matches(c, k)
      decreases deadline - day * DAY
    {
      if DayMatches(c, day) {
        var candidate := day * DAY;
        if day == first { candidate := start; }
        var found := ScanDay(c, day, candidate, deadline);
        if found.Some? {
          BeforeFound(c, start, day, candidate, found.value, deadline);
          ScanFound(c, start, deadline, found.value);
          return Some(found.value - offset);
        }
        DayDone(c, start, day, candidate, deadline);
      } else {
        assert forall k :: start <= k && k / DAY == day ==> !Matches(c, k);
      }
      day := day + 1;
    }
    forall k | start <= k <= deadline ensures !Matches(c, k) {
      assert k / DAY < day by { EarlierDay(k, day); }
    }
    ScanNone(c, start, deadline);
    return None;
  }

  lemma EarlierDay(k: nat, day: nat)
    requires k < day * DAY
    ensures k / DAY < day
  {}

  lemma BeforeFound(c: Schedule, start: nat, day: nat, candidate: nat, found: nat, deadline: int)
    requires candidate == (if day == start / DAY then start else day * DAY) && start / DAY <= day
    requires candidate <= found <= deadline && found / DAY == day
    requires forall k :: start <= k && k / DAY < day && k <= deadline ==> !Matches(c, k)
    requires forall k :: candidate <= k < found ==> !Matches(c, k)
    ensures start <= found && forall k :: start <= k < found ==> !Matches(c, k)
  {
    hide Matches;
    forall k | start <= k < found ensures !Matches(c, k) {
      if k < candidate { assert k / DAY < day; }
    }
  }

  lemma DayDone(c: Schedule, start: nat, day: nat, candidate: nat, deadline: int)
    requires candidate == (if day == start / DAY then start else day * DAY) && start / DAY <= day
    requires forall k :: candidate <= k <= deadline && k / DAY == day ==> !Matches(c, k)
    ensures forall k :: start <= k <= deadline && k / DAY == day ==> !Matches(c, k)
  {
    hide Matches;
    forall k | start <= k <= deadline && k / DAY == day ensures !Matches(c, k) {
      assert candidate <= k;
    }
  }

  // ---- When a search always succeeds ----

  /** What parsing guarantees: values in range, none of the fields empty, and some
      allowed day that exists at least in leap years. */
  ghost predicate Accepted(c: Schedule) {
    && (exists mi :: mi in c.minute && 0 <= mi < 60) && (exists h :: h in c.hour && 0 <= h < 24)
    && (exists mo, d :: mo in c.month && d in c.dom && 1 <= mo <= 12 && 1 <= d <= DaysInMonth(4, mo))
  }

  /** Some allowed month and day exist in every year: year 1 is no leap year. */
  ghost predicate EveryYear(c: Schedule) {
    exists mo, d :: mo in c.month && d in c.dom && 1 <= mo <= 12 && 1 <= d <= DaysInMonth(1, mo)
  }

  predicate AnyWeekday(c: Schedule) { forall w :: 0 <= w < 7 ==> w in c.dow }

  function At(d: Date, h: int, mi: int): int { DayNumber(d) * DAY + h * 60 + mi }

  lemma AtMatches(c: Schedule, d: Date, h: int, mi: int)
    requires ValidDate(d) && 0 <= h < 24 && 0 <= mi < 60 && AnyWeekday(c)
    requires d.month in c.month && d.day in c.dom && h in c.hour && mi in c.minute
    ensures At(d, h, mi) >= 0 && Matches(c, At(d, h, mi)) && At(d, h, mi) / DAY == DayNumber(d)
  {
    DateOfNumber(d);
    hide DayNumber, DateAt, ValidDate;
    ClockOf(DayNumber(d), h, mi);
  }

  lemma ClockOf(n: nat, h: int, mi: int)
    requires 0 <= h < 24 && 0 <= mi < 60
    ensures var m := n * DAY + h * 60 + mi;
      m / DAY == n && m % 60 == mi && m % DAY / 60 == h
  {
    var m, t := n * DAY + h * 60 + mi, h * 60 + mi;
    InDay(n, m);
    assert m % DAY == t;
    assert t / 60 == h;
    assert m == 60 * (n * 24 + h) + mi;
    assert m % 60 == mi;
  }

  lemma StartInYear(start: nat)
    ensures var d := DateAt(start / DAY);
      && ValidDate(d) && DaysBeforeYear(d.year) <= start / DAY < DaysBeforeYear(d.year + 1)
      && Deadline(start) >= start + 1824 * DAY
  {
    var n := start / DAY;
    var d := DateAt(n);
    DateAtNumber(n);
    InYear(d);
    YearsOn(d, 5);
    hide DayNumber, DateAt, ValidDate, DaysBeforeYear;
  }

  lemma SameInYear(y: int, mo: int, d: int)
    requires 1 <= mo <= 12 && 1 <= d <= DaysInMonth(1, mo) && y >= 1
    ensures ValidDate(Date(y, mo, d))
    ensures DaysBeforeYear(y) <= DayNumber(Date(y, mo, d)) < DaysBeforeYear(y + 1) <= DaysBeforeYear(y) + 366
    ensures ValidDate(Date(y + 1, mo, d)) && DaysBeforeYear(y + 1) <= DayNumber(Date(y + 1, mo, d))
    ensures DayNumber(Date(y + 1, mo, d)) <= DayNumber(Date(y, mo, d)) + 366
  {
    assert !IsLeap(1);
    InYear(Date(y, mo, d));
    InYear(Date(y + 1, mo, d));
    YearsOn(Date(y, mo, d), 1);
    YearLength(y);
    assert Date(y, mo, d).(year := y + 1) == Date(y + 1, mo, d);
    hide DayNumber, DaysBeforeYear, IsLeap;
  }

  /** Without a restriction on weekdays, a day that exists every year is found, and no
      later than 366 days on. */
  lemma YearlyHit(c: Schedule, start: nat)
    requires Accepted(c) && AnyWeekday(c) && EveryYear(c)
    ensures var scan := MinuteScan(c, start, Deadline(start));
      scan.Some? && scan.value - (start - 1) <= 366 * DAY
  {
    var mi :| mi in c.minute && 0 <= mi < 60;
    var h :| h in c.hour && 0 <= h < 24;
    var mo, d :| mo in c.month && d in c.dom && 1 <= mo <= 12 && 1 <= d <= DaysInMonth(1, mo);
    StartInYear(start);
    var y := DateAt(start / DAY).year;
    assert y >= 1;
    SameInYear(y, mo, d);
    AtMatches(c, Date(y, mo, d), h, mi);
    AtMatches(c, Date(y + 1, mo, d), h, mi);
    hide Matches, Deadline, DateAt, ValidDate, DaysBeforeYear, DayNumber, DaysInMonth, AnyWeekday;
    var t := if At(Date(y, mo, d), h, mi) >= start then At(Date(y, mo, d), h, mi) else At(Date(y + 1, mo, d), h, mi);
    assert start <= t <= start - 1 + 366 * DAY;
    ScanMeaning(c, start, Deadline(start));
  }

  lemma OnlyLeapDays(c: Schedule, d: Date)
    requires !EveryYear(c) && ValidDate(d) && d.month in c.month && d.day in c.dom
    ensures d.month == 2 && d.day == 29 && IsLeap(d.year)
  {
    assert d.month in c.month && d.day in c.dom && !(1 <= d.day <= DaysInMonth(1, d.month));
    assert !IsLeap(1);
  }

  lemma NoLeapYears(y: int)
    requires 1897 <= y <= 1901
    ensures !IsLeap(y)
  {
    if y == 1900 { assert y % 100 == 0 && y % 400 == 300; }
  }

  /** No 29 February lies between March 1896 and March 1901. */
  lemma CenturyGap(n: nat)
    requires DayNumber(Date(1896, 3, 1)) <= n <= DayNumber(Date(1901, 3, 1))
    ensures !(DateAt(n).month == 2 && DateAt(n).day == 29 && IsLeap(DateAt(n).year))
  {
    DateAtNumber(n);
    var d, first, last := DateAt(n), Date(1896, 3, 1), Date(1901, 3, 1);
    assert ValidDate(first) && ValidDate(last);
    hide *;
    if d.month == 2 && d.day == 29 && IsLeap(d.year) {
      if d.year <= 1896 {
        Earlier(d, first);
      } else if d.year > 1901 {
        Earlier(last, d);
      } else {
        NoLeapYears(d.year);
      }
    }
  }

  lemma LeapOnlyMisses(c: Schedule)
    requires !EveryYear(c)
    ensures var start := DayNumber(Date(1896, 3, 1)) * DAY;
      start >= 0 && MinuteScan(c, start, Deadline(start)) == None
  {
    var first, last := Date(1896, 3, 1), Date(1901, 3, 1);
    assert ValidDate(first);
    DateOfNumber(first);
    var n := DayNumber(first);
    var start := n * DAY;
    InDay(n, start);
    assert first.(year := first.year + 5) == last;
    assert Deadline(start) == DayNumber(last) * DAY;
    hide DayNumber, Deadline, EveryYear;
    forall k | start <= k <= Deadline(start) ensures !Matches(c, k) {
      InDay(k / DAY, k);
      CenturyGap(k / DAY);
      DateAtNumber(k / DAY);
      if Matches(c, k) { OnlyLeapDays(c, DateAt(k / DAY)); }
    }
    ScanNone(c, start, Deadline(start));
  }

  /** The exact condition, for schedules open to every weekday: every search succeeds
      if and only if some allowed month and day exist in every year. */
  lemma OpenWeekdaysFireIff(c: Schedule)
    requires Accepted(c) && AnyWeekday(c)
    ensures EveryYear(c) <==> forall start: nat :: Fires(c, start)
  {
    hide Accepted, AnyWeekday, EveryYear, MinuteScan, Deadline;
    if EveryYear(c) {
      forall start: nat ensures Fires(c, start) { YearlyHit(c, start); }
    } else {
      LeapOnlyMisses(c);
      assert !Fires(c, DayNumber(Date(1896, 3, 1)) * DAY);
    }
  }

  /** A search from `start` succeeds. */
  predicate Fires(c: Schedule, start: nat) { MinuteScan(c, start, Deadline(start)).Some? }

  // ---- The calendar repeats after 400 years ----

  const CYCLE: nat := CYCLE_DAYS * DAY

  lemma MatchesAgain(c: Schedule, m: nat)
    ensures Matches(c, m + CYCLE) <==> Matches(c, m)
  {
    var n := m / DAY;
    assert (m + CYCLE) / DAY == n + CYCLE_DAYS && (m + CYCLE) % DAY == m % DAY && (m + CYCLE) % 60 == m % 60;
    CycleDate(n);
    hide DateAt;
  }

  lemma DeadlineOf(d: Date, t: nat)
    requires ValidDate(d) && t < DAY
    ensures DayNumber(d) >= 0 && Deadline(DayNumber(d) * DAY + t) == DayNumber(d.(year := d.year + 5)) * DAY + t
  {
    hide ValidDate, DayNumber, DateAt;
    DateOfNumber(d);
    InDay(DayNumber(d), DayNumber(d) * DAY + t);
  }

  lemma DeadlineAgain(start: nat)
    ensures Deadline(start + CYCLE) == Deadline(start) + CYCLE
  {
    hide Deadline, DateAt, DayNumber, ValidDate;
    var n, t := start / DAY, start % DAY;
    DateAtNumber(n);
    var d := DateAt(n);
    var e, five := d.(year := d.year + 400), d.(year := d.year + 5);
    CycleNumber(d);
    CycleNumber(five);
    DeadlineOf(d, t);
    DeadlineOf(e, t);
    assert start == n * DAY + t && start + CYCLE == DayNumber(e) * DAY + t;
    assert e.(year := e.year + 5) == five.(year := five.year + 400);
  }

  lemma FiresAgain(c: Schedule, start: nat)
    ensures Fires(c, start + CYCLE) <==> Fires(c, start)
  {
    var end := Deadline(start);
    DeadlineAgain(start);
    ScanMeaning(c, start, end);
    ScanMeaning(c, start + CYCLE, end + CYCLE);
    hide Matches, Deadline, MinuteScan;
    var here, there := MinuteScan(c, start, end), MinuteScan(c, start + CYCLE, end + CYCLE);
    if here.Some? { MatchesAgain(c, here.value); }
    if there.Some? { MatchesAgain(c, there.value - CYCLE); }
  }

  // ---- When any schedule always fires ----

  /** The day a search from day `n` ends on, five years on. */
  function LastDay(n: nat): (r: int)
    ensures r >= n + 1824
  {
    FiveYearsOn(n);
    var d := DateAt(n);
    DayNumber(d.(year := d.year + 5))
  }

  lemma FiveYearsOn(n: nat)
    ensures var d := DateAt(n); DayNumber(d.(year := d.year + 5)) >= n + 1824
  {
    DateAtNumber(n);
    YearsOn(DateAt(n), 5);
    hide DayNumber, DateAt, ValidDate;
  }

  /** Some time of day is open. */
  ghost predicate HasTime(c: Schedule) {
    exists h, mi :: h in c.hour && mi in c.minute && 0 <= h < 24 && 0 <= mi < 60
  }

  /** No search from day `n` misses: an allowed day lies strictly between it and the day five
      years on; or both are allowed, or the earlier one with its last minute open, or the
      later one with its first. */
  ghost predicate Covered(c: Schedule, n: nat) {
    || (exists m :: n < m < LastDay(n) && DayMatches(c, m))
    || (DayMatches(c, n) && DayMatches(c, LastDay(n)))
    || (DayMatches(c, n) && 23 in c.hour && 59 in c.minute)
    || (DayMatches(c, LastDay(n)) && 0 in c.hour && 0 in c.minute)
  }

  lemma SearchEnd(n: nat, t: nat)
    requires t < DAY
    ensures Deadline(n * DAY + t) == LastDay(n) * DAY + t
  {
    InDay(n, n * DAY + t);
    hide DayNumber, DateAt;
  }

  lemma FiresAt(c: Schedule, start: nat, m: nat)
    requires start <= m <= Deadline(start) && Matches(c, m)
    ensures Fires(c, start)
  {
    hide Matches, Deadline;
    ScanMeaning(c, start, Deadline(start));
  }

  lemma OpenAt(c: Schedule, n: nat, h: int, mi: int)
    requires DayMatches(c, n) && h in c.hour && mi in c.minute && 0 <= h < 24 && 0 <= mi < 60
    ensures Matches(c, n * DAY + h * 60 + mi)
  {
    hide DayMatches;
    ClockOf(n, h, mi);
  }

  lemma CoveredFires(c: Schedule, n: nat, t: nat)
    requires HasTime(c) && Covered(c, n) && t < DAY
    ensures Fires(c, n * DAY + t)
  {
    hide DayMatches, LastDay, Matches, Deadline, Fires;
    var h, mi :| h in c.hour && mi in c.minute && 0 <= h < 24 && 0 <= mi < 60;
    var last, start := LastDay(n), n * DAY + t;
    SearchEnd(n, t);
    if m :| n < m < last && DayMatches(c, m) {
      OpenAt(c, m, h, mi);
      FiresAt(c, start, m * DAY + h * 60 + mi);
    } else if DayMatches(c, n) && h * 60 + mi >= t {
      OpenAt(c, n, h, mi);
      FiresAt(c, start, n * DAY + h * 60 + mi);
    } else if DayMatches(c, n) && DayMatches(c, last) {
      OpenAt(c, last, h, mi);
      FiresAt(c, start, last * DAY + h * 60 + mi);
    } else if DayMatches(c, n) {
      OpenAt(c, n, 23, 59);
      FiresAt(c, start, n * DAY + 23 * 60 + 59);
    } else {
      OpenAt(c, last, 0, 0);
      FiresAt(c, start, last * DAY + 0 * 60 + 0);
    }
  }

  /** A day that is not covered has a minute from which the search misses. */
  lemma UncoveredMisses(c: Schedule, n: nat) returns (t: nat)
    requires !Covered(c, n)
    ensures t < DAY && !Fires(c, n * DAY + t)
  {
    hide DayMatches, LastDay, Deadline, Fires;
    var last := LastDay(n);
    t := if DayMatches(c, n) then DAY - 1 else 0;
    SearchEnd(n, t);
    var start := n * DAY + t;
    forall k | start <= k <= last * DAY + t ensures !Matches(c, k) {
      hide Covered;
      DayWithin(n, last, k, t);
      if Matches(c, k) { MatchCovers(c, n, k, t); }
    }
    hide Matches;
    MissesAll(c, start);
  }

  lemma DayWithin(n: nat, last: int, k: nat, t: nat)
    requires t < DAY && n * DAY + t <= k <= last * DAY + t && last >= n
    ensures n <= k / DAY <= last && k == k / DAY * DAY + k % DAY
    ensures k / DAY == n ==> k % DAY >= t
    ensures k / DAY == last ==> k % DAY <= t
  {}

  lemma MatchCovers(c: Schedule, n: nat, k: nat, t: nat)
    requires Matches(c, k) && t == (if DayMatches(c, n) then DAY - 1 else 0) && n <= k / DAY <= LastDay(n)
    requires k / DAY == n ==> k % DAY >= t
    requires k / DAY == LastDay(n) ==> k % DAY <= t
    ensures Covered(c, n)
  {
    hide DayMatches, LastDay;
    var d, r := k / DAY, k % DAY;
    assert k % 60 == r % 60;
    if n < d < LastDay(n) {
      assert DayMatches(c, d);
    } else if d == n {
      assert r == DAY - 1 && r / 60 == 23 && r % 60 == 59;
    } else if !DayMatches(c, n) {
      assert r == 0;
    }
  }

  lemma MissesAll(c: Schedule, start: nat)
    requires forall k :: start <= k <= Deadline(start) ==> !Matches(c, k)
    ensures !Fires(c, start)
  {
    hide Matches, Deadline;
    ScanNone(c, start, Deadline(start));
  }

  lemma CoveredAgain(c: Schedule, n: nat)
    requires HasTime(c) && Covered(c, n)
    ensures Covered(c, n + CYCLE_DAYS)
  {
    hide Covered, Fires, HasTime;
    if !Covered(c, n + CYCLE_DAYS) {
      var t := UncoveredMisses(c, n + CYCLE_DAYS);
      CoveredFires(c, n, t);
      assert (n + CYCLE_DAYS) * DAY + t == n * DAY + t + CYCLE;
      FiresAgain(c, n * DAY + t);
    }
  }

  lemma {:induction false} CoveredInCycle(c: Schedule, n: nat)
    requires HasTime(c) && forall k: nat :: k < CYCLE_DAYS ==> Covered(c, k)
    ensures Covered(c, n)
    decreases n
  {
    hide Covered, HasTime;
    if n >= CYCLE_DAYS {
      CoveredInCycle(c, n - CYCLE_DAYS);
      CoveredAgain(c, n - CYCLE_DAYS);
    }
  }

  lemma NeedsTime(c: Schedule)
    requires Fires(c, 0)
    ensures HasTime(c)
  {
    hide DayMatches, Deadline;
    ScanMeaning(c, 0, Deadline(0));
    var m := MinuteScan(c, 0, Deadline(0)).value;
    assert TimeMatches(c, m) && 0 <= m % DAY / 60 < 24 && 0 <= m % 60 < 60;
  }

  /** The exact condition for any schedule, with weekdays restricted or not: every search
      succeeds if and only if some time is open and no day of one 400-year cycle is left
      uncovered. */
  lemma AlwaysFiresIff(c: Schedule)
    ensures (forall start: nat :: Fires(c, start)) <==> HasTime(c) && forall n: nat :: n < CYCLE_DAYS ==> Covered(c, n)
  {
    hide Fires, Covered, HasTime;
    if HasTime(c) && forall n: nat :: n < CYCLE_DAYS ==> Covered(c, n) {
      forall start: nat ensures Fires(c, start) {
        CoveredInCycle(c, start / DAY);
        CoveredFires(c, start / DAY, start % DAY);
        assert start == start / DAY * DAY + start % DAY;
      }
    }
    if forall start: nat :: Fires(c, start) {
      NeedsTime(c);
      forall n: nat ensures Covered(c, n) {
        if !Covered(c, n) { var t := UncoveredMisses(c, n); }
      }
    }
  }

  // ---- A schedule that gets stuck ----

  /** Midnight and five past, on a 29 February that is a Thursday. */
  const LEAP_THURSDAY: Schedule := Schedule({0, 5}, {0}, {29}, {2}, {4})

  const LEAP_MIDNIGHT: int := DayNumber(Date(2024, 2, 29)) * DAY

  lemma LeapThursdays()
    ensures DayNumber(Date(2024, 2, 29)) == 738944 && Weekday(738944) == 4
    ensures Weekday(DayNumber(Date(2028, 2, 29))) == 2
    ensures DayNumber(Date(2052, 2, 29)) >= 0 && Weekday(DayNumber(Date(2052, 2, 29))) == 4
  {
    LeapFebruary(2024);
    LeapFebruary(2028);
    LeapFebruary(2052);
  }

  lemma LeapFebruary(y: int)
    requires y >= 1 && y % 4 == 0 && y % 100 != 0
    ensures ValidDate(Date(y, 2, 29)) && DayNumber(Date(y, 2, 29)) == DaysBeforeYear(y) + 59
  {
    assert DaysBeforeMonth(y, 1) == 0;
    assert DaysBeforeMonth(y, 2) == 31;
  }

  /** On a 29 February both times match if it is a Thursday, else none. */
  lemma LeapHit(y: int, m: nat)
    requires y >= 1 && y % 4 == 0 && y % 100 != 0 && m / DAY == DayNumber(Date(y, 2, 29))
    ensures Matches(LEAP_THURSDAY, m) <==> Weekday(m / DAY) == 4 && m % DAY in {0, 5}
  {
    LeapFebruary(y);
    DateOfNumber(Date(y, 2, 29));
    LeapTimes(m);
    hide DayNumber, DateAt, TimeMatches, Weekday;
    assert DayMatches(LEAP_THURSDAY, m / DAY) <==> Weekday(m / DAY) == 4;
  }

  lemma LeapTimes(m: nat)
    ensures TimeMatches(LEAP_THURSDAY, m) <==> m % DAY in {0, 5}
  {
    assert m % 60 == m % DAY % 60;
  }

  /** No 29 February after 2024 is a Thursday before March 2029. */
  lemma LeapDates(n: nat)
    requires 738944 < n <= DayNumber(Date(2029, 3, 1))
    ensures !DayMatches(LEAP_THURSDAY, n)
  {
    var first, last := Date(2024, 2, 29), Date(2029, 3, 1);
    var d := DateAt(n);
    DateAtNumber(n);
    LeapThursdays();
    LeapFebruary(2024);
    assert ValidDate(last);
    hide DayNumber, DateAt, Weekday;
    if d.month == 2 && d.day == 29 {
      assert IsLeap(d.year);
      hide DaysInMonth, IsLeap;
      if d.year < 2024 { Earlier(d, first); }
      if d.year > 2029 { Earlier(last, d); }
      LeapYearsNear(d.year);
      assert d != first;
      assert d == Date(2028, 2, 29);
    }
  }

  lemma LeapYearsNear(y: int)
    requires IsLeap(y) && 2024 <= y <= 2029
    ensures y == 2024 || y == 2028
  {}

  /** From six minutes past midnight on, there is nothing for more than five years. */
  lemma LeapMiss(k: nat)
    requires LEAP_MIDNIGHT + 6 < k < (DayNumber(Date(2029, 3, 1)) + 1) * DAY
    ensures !Matches(LEAP_THURSDAY, k)
  {
    var n := k / DAY;
    LeapThursdays();
    LeapTimes(k);
    assert n <= DayNumber(Date(2029, 3, 1)) by { hide DayNumber; EarlierDay(k, DayNumber(Date(2029, 3, 1)) + 1); }
    hide DayNumber, DateAt, TimeMatches, DayMatches;
    if n > 738944 { LeapDates(n); }
  }

  /** The search at midnight finds five past; the one six minutes later finds nothing;
      23 years on, within five years of the next such day, searches succeed again. */
  lemma LeapSearches()
    ensures LEAP_MIDNIGHT >= 0 && Matches(LEAP_THURSDAY, LEAP_MIDNIGHT)
    ensures MinuteScan(LEAP_THURSDAY, LEAP_MIDNIGHT + 1, Deadline(LEAP_MIDNIGHT + 1)) == Some(LEAP_MIDNIGHT + 5)
    ensures MinuteScan(LEAP_THURSDAY, LEAP_MIDNIGHT + 7, Deadline(LEAP_MIDNIGHT + 7)) == None
    ensures var again := DayNumber(Date(2047, 3, 1)) * DAY + 1;
      again >= LEAP_MIDNIGHT + 7 && MinuteScan(LEAP_THURSDAY, again, Deadline(again)).Some?
  {
    LeapThursdays();
    LeapFound();
    LeapGap();
    LeapLater();
    InDay(738944, LEAP_MIDNIGHT);
    LeapHit(2024, LEAP_MIDNIGHT);
    hide Matches, MinuteScan, Deadline, DayNumber, DateAt;
    assert LEAP_MIDNIGHT % DAY == 0;
  }

  lemma LeapFound()
    ensures LEAP_MIDNIGHT >= 0
    ensures MinuteScan(LEAP_THURSDAY, LEAP_MIDNIGHT + 1, Deadline(LEAP_MIDNIGHT + 1)) == Some(LEAP_MIDNIGHT + 5)
  {
    LeapThursdays();
    StartInYear(LEAP_MIDNIGHT + 1);
    hide Deadline, Matches, DayNumber, DateAt, DaysBeforeYear;
    forall k | LEAP_MIDNIGHT + 1 <= k <= LEAP_MIDNIGHT + 5
      ensures Matches(LEAP_THURSDAY, k) <==> k == LEAP_MIDNIGHT + 5
    {
      InDay(738944, k);
      LeapHit(2024, k);
    }
    ScanFound(LEAP_THURSDAY, LEAP_MIDNIGHT + 1, Deadline(LEAP_MIDNIGHT + 1), LEAP_MIDNIGHT + 5);
  }

  lemma LeapGap()
    ensures LEAP_MIDNIGHT >= 0
    ensures MinuteScan(LEAP_THURSDAY, LEAP_MIDNIGHT + 7, Deadline(LEAP_MIDNIGHT + 7)) == None
  {
    LeapThursdays();
    var start := LEAP_MIDNIGHT + 7;
    LeapFebruary(2024);
    DeadlineOf(Date(2024, 2, 29), 7);
    assert Date(2024, 2, 29).(year := 2029) == Date(2029, 2, 29);
    assert DayNumber(Date(2029, 2, 29)) == DayNumber(Date(2029, 3, 1));
    assert Deadline(start) < (DayNumber(Date(2029, 3, 1)) + 1) * DAY;
    hide DayNumber, Deadline, Matches, DateAt;
    forall k | start <= k <= Deadline(start) ensures !Matches(LEAP_THURSDAY, k) { LeapMiss(k); }
    ScanNone(LEAP_THURSDAY, start, Deadline(start));
  }

  lemma LeapLater()
    ensures var again := DayNumber(Date(2047, 3, 1)) * DAY + 1;
      again >= LEAP_MIDNIGHT + 7 && again >= 0 && MinuteScan(LEAP_THURSDAY, again, Deadline(again)).Some?
  {
    var d, hit := Date(2047, 3, 1), Date(2052, 2, 29);
    LeapOrder();
    LeapThursdays();
    var again, m := DayNumber(d) * DAY + 1, DayNumber(hit) * DAY;
    hide DayNumber, Deadline, Matches, DateAt, ValidDate, Weekday;
    InDay(DayNumber(hit), m);
    LeapHit(2052, m);
    ScanMeaning(LEAP_THURSDAY, again, Deadline(again));
  }

  lemma LeapOrder()
    ensures DayNumber(Date(2024, 2, 29)) < DayNumber(Date(2047, 3, 1))
    ensures DayNumber(Date(2047, 3, 1)) < DayNumber(Date(2052, 2, 29)) < DayNumber(Date(2052, 3, 1))
    ensures var again := DayNumber(Date(2047, 3, 1)) * DAY + 1;
      again >= 0 && Deadline(again) == DayNumber(Date(2052, 3, 1)) * DAY + 1
  {
    var d, hit, after := Date(2047, 3, 1), Date(2052, 2, 29), Date(2052, 3, 1);
    assert ValidDate(d) && ValidDate(after);
    LeapFebruary(2024);
    LeapFebruary(2052);
    hide *;
    Earlier(Date(2024, 2, 29), d);
    Earlier(d, hit);
    Earlier(hit, after);
    DeadlineOf(d, 1);
    assert d.(year := d.year + 5) == after;
  }
}
