/** Path locks: internal/storage/store.go, the vault_locks table. Each call is one
    transaction; instants are whole seconds. */
module PathLocks {
  import opened Text

  datatype Lock = Lock(plan: string, expires: int)

  type Rows = map<string, Lock>

  /** What the reaper leaves: the rows that expire later than `now`. */
  function Live(rows: Rows, now: int): Rows {
    map p | p in rows && rows[p].expires > now :: rows[p]
  }

  /** A lock is granted when every path is free once expired rows are reaped. */
  predicate Grants(rows: Rows, paths: seq<string>, now: int) {
    Distinct(paths) && forall p :: p in paths ==> p !in Live(rows, now)
  }

  function WithLocks(rows: Rows, paths: seq<string>, lock: Lock): Rows {
    rows + map p | p in paths :: lock
  }

  function AfterAcquire(rows: Rows, paths: seq<string>, plan: string, now: int, ttl: int): Rows {
    if Grants(rows, paths, now) then WithLocks(Live(rows, now), paths, Lock(plan, now + ttl)) else rows
  }

  function AfterRelease(rows: Rows, plan: string): Rows {
    map p | p in rows && rows[p].plan != plan :: rows[p]
  }

  lemma NoPaths()
    ensures Distinct<string>([])
  {}

  lemma DistinctMore(paths: seq<string>, i: nat)
    requires i < |paths| && Distinct(paths[..i])
    ensures paths[i] in paths[..i] <==> !Distinct(paths[..i + 1])
  {
    var before, after := paths[..i], paths[..i + 1];
    if paths[i] in before {
      var k :| 0 <= k < i && before[k] == paths[i];
      assert after[k] == after[i];
    } else {
      forall a, b | 0 <= a < b < |after| ensures after[a] != after[b] {
        assert after[a] == before[a];
        if b < i { assert after[b] == before[b]; }
      }
    }
  }

  /** One row more, possible exactly when its path is still free. */
  lemma OneMore(live: Rows, paths: seq<string>, i: nat, lock: Lock)
    requires i < |paths| && Distinct(paths[..i])
    ensures var sofar := WithLocks(live, paths[..i], lock);
      && (paths[i] in sofar <==> paths[i] in live || !Distinct(paths[..i + 1]))
      && WithLocks(live, paths[..i + 1], lock) == sofar[paths[i] := lock]
  {
    DistinctMore(paths, i);
    hide Distinct;
    assert paths[..i + 1] == paths[..i] + [paths[i]];
    LocksMore(live, paths[..i], paths[i], lock);
    LocksIn(live, paths[..i], paths[i], lock);
  }

  lemma DistinctPrefix(paths: seq<string>, i: nat)
    requires i <= |paths| && !Distinct(paths[..i])
    ensures !Distinct(paths)
  {
    var before := paths[..i];
    var a, b :| 0 <= a < b < |before| && before[a] == before[b];
    assert paths[a] == paths[b];
  }

  lemma LocksIn(live: Rows, taken: seq<string>, p: string, lock: Lock)
    ensures p in WithLocks(live, taken, lock) <==> p in live || p in taken
  {}

  lemma LocksMore(live: Rows, taken: seq<string>, p: string, lock: Lock)
    ensures WithLocks(live, taken + [p], lock) == WithLocks(live, taken, lock)[p := lock]
  {}

  predicate AllRunOut(rows: Rows, paths: seq<string>, now: int) {
    forall p :: p in paths && p in rows ==> rows[p].expires <= now
  }

  /** The paths are the lock's, every other row that has not run out stays, and no more. */
  predicate TakenOver(before: Rows, paths: seq<string>, lock: Lock, now: int, after: Rows) {
    && (forall p :: p in after ==> p in paths || (p in before && before[p].expires > now && after[p] == before[p]))
    && (forall p :: p in before && before[p].expires > now ==> p in after)
    && (forall p :: p in paths ==> p in after && after[p] == lock)
  }

  lemma GrantsMean(rows: Rows, paths: seq<string>, plan: string, now: int, ttl: int)
    ensures Grants(rows, paths, now) <==> Distinct(paths) && AllRunOut(rows, paths, now)
    ensures Grants(rows, paths, now) ==>
      TakenOver(rows, paths, Lock(plan, now + ttl), now, AfterAcquire(rows, paths, plan, now, ttl))
  {
    hide Distinct;
  }

  const DEFAULT_LOCK_TTL: int := 30 * 60

  class LockTable {
    var rows: Rows
    const ttl: int

    constructor (ttl: int)
      ensures rows == map[] && this.ttl == (if ttl <= 0 then DEFAULT_LOCK_TTL else ttl)
    {
      rows := map[];
      this.ttl := if ttl <= 0 then DEFAULT_LOCK_TTL else ttl;
    }

    /** A refused request rolls the whole transaction back, the reaping included. */
    method Acquire(paths: seq<string>, plan: string, now: int) returns (ok: bool)
      modifies this
      ensures ok == Grants(old(rows), paths, now)
      ensures rows == AfterAcquire(old(rows), paths, plan, now, ttl)
      ensures ok <==> Distinct(paths) && AllRunOut(old(rows), paths, now)
      ensures if ok then TakenOver(old(rows), paths, Lock(plan, now + ttl), now, rows) else rows == old(rows)
    {
      GrantsMean(rows, paths, plan, now, ttl);
      var next := Live(rows, now);
      ghost var live, lock := next, Lock(plan, now + ttl);
      hide Distinct, Live, AllRunOut, TakenOver;
      assert Distinct<string>([]) by { NoPaths(); }
      for i := 0 to |paths|
        invariant rows == old(rows)
        invariant Distinct(paths[..i])
        invariant forall p :: p in paths[..i] ==> p !in live
        invariant next == WithLocks(live, paths[..i], lock)
      {
        OneMore(live, paths, i, lock);
        assert paths[..i + 1] == paths[..i] + [paths[i]];
        if paths[i] in next {
          assert paths[i] in paths;
          if !Distinct(paths[..i + 1]) { DistinctPrefix(paths, i + 1); }
          return false;
        }
        next := next[paths[i] := Lock(plan, now + ttl)];
      }
      assert paths[..|paths|] == paths;
      rows := next;
      return true;
    }

    /** Only the plan's own rows go, even when another plan took over some of its paths. */
    method Release(plan: string)
      modifies this
      ensures rows == AfterRelease(old(rows), plan)
      ensures forall p :: p in rows <==> p in old(rows) && old(rows)[p].plan != plan
    {
      rows := map p | p in rows && rows[p].plan != plan :: rows[p];
    }
  }

  // ---- Runs ----

  datatype Event = Acquire(plan: string, paths: seq<string>, now: int) | Release(plan: string, now: int)

  function After(rows: Rows, e: Event, ttl: int): Rows {
    match e
    case Acquire(plan, paths, now) => AfterAcquire(rows, paths, plan, now, ttl)
    case Release(plan, _) => AfterRelease(rows, plan)
  }

  /** The table after the first `n` calls of a run that starts empty. */
  function Table(run: seq<Event>, n: nat, ttl: int): Rows
    requires n <= |run|
  {
    if n == 0 then map[] else After(Table(run, n - 1, ttl), run[n - 1], ttl)
  }

  /** The clock never goes back. */
  predicate Ordered(run: seq<Event>) {
    forall i, j :: 0 <= i < j < |run| ==> run[i].now <= run[j].now
  }

  /** Call `i` is a successful request by `plan`. */
  predicate Acquired(run: seq<Event>, i: nat, plan: string, ttl: int)
    requires i < |run|
  {
    run[i].Acquire? && run[i].plan == plan && Grants(Table(run, i, ttl), run[i].paths, run[i].now)
  }

  predicate NoRelease(run: seq<Event>, plan: string, from: nat, end: nat)
    requires from <= end <= |run|
  {
    forall k :: from <= k < end ==> run[k] != Release(plan, run[k].now)
  }

  /** A plan that acquired and has neither released nor expired holds all its paths. */
  lemma {:induction false} HolderKeepsPaths(run: seq<Event>, i: nat, n: nat, plan: string, ttl: int)
    requires i < n <= |run| && Ordered(run) && Acquired(run, i, plan, ttl)
    requires NoRelease(run, plan, i + 1, n) && run[n - 1].now < run[i].now + ttl
    ensures forall p :: p in run[i].paths ==>
      p in Table(run, n, ttl) && Table(run, n, ttl)[p] == Lock(plan, run[i].now + ttl)
    decreases n
  {
    if n > i + 1 {
      assert run[n - 2].now <= run[n - 1].now;
      HolderKeepsPaths(run, i, n - 1, plan, ttl);
      assert run[n - 1] != Release(plan, run[n - 1].now);
    }
  }

  /** Two plans never hold one path together: a path changes hands only after its
      holder released or its lock ran out. */
  lemma TakeoverNeedsExpiry(run: seq<Event>, i: nat, j: nat, p: string, ttl: int)
    requires i < j < |run| && Ordered(run) && Acquired(run, i, run[i].plan, ttl) && Acquired(run, j, run[j].plan, ttl)
    requires p in run[i].paths && p in run[j].paths
    requires NoRelease(run, run[i].plan, i + 1, j)
    ensures run[j].now >= run[i].now + ttl
  {
    if run[j].now < run[i].now + ttl {
      assert run[j - 1].now <= run[j].now;
      HolderKeepsPaths(run, i, j, run[i].plan, ttl);
    }
  }

  /** A row after a call is the call's own grant or was there before, not its plan's
      release, and not granted anew. */
  lemma RowOrigin(rows: Rows, e: Event, p: string, ttl: int)
    requires p in After(rows, e, ttl)
    ensures var row := After(rows, e, ttl)[p];
      if e.Acquire? && p in e.paths && Grants(rows, e.paths, e.now) then row == Lock(e.plan, e.now + ttl)
      else p in rows && row == rows[p] && e != Release(row.plan, e.now)
  {}

  /** Every row names the last plan granted its path, with the expiry of that grant. */
  lemma {:induction false} RowsAreGrants(run: seq<Event>, n: nat, p: string, ttl: int) returns (i: nat)
    requires n <= |run| && p in Table(run, n, ttl)
    ensures i < n && run[i].Acquire? && p in run[i].paths && Acquired(run, i, run[i].plan, ttl)
    ensures Table(run, n, ttl)[p] == Lock(run[i].plan, run[i].now + ttl)
    ensures NoRelease(run, run[i].plan, i + 1, n)
    ensures forall k :: i < k < n && run[k].Acquire? && p in run[k].paths ==> !Acquired(run, k, run[k].plan, ttl)
    decreases n
  {
    hide Grants, After, Live;
    var e, rows := run[n - 1], Table(run, n - 1, ttl);
    RowOrigin(rows, e, p, ttl);
    assert Table(run, n, ttl) == After(rows, e, ttl);
    hide Table;
    if e.Acquire? && p in e.paths && Grants(rows, e.paths, e.now) {
      i := n - 1;
    } else {
      i := RowsAreGrants(run, n - 1, p, ttl);
    }
  }

  /** The plan granted by call `i` has neither released nor run out at call `n`. */
  predicate StillHolds(run: seq<Event>, i: nat, n: nat, ttl: int)
    requires i < n < |run|
  {
    && run[i].Acquire? && Acquired(run, i, run[i].plan, ttl)
    && NoRelease(run, run[i].plan, i + 1, n) && run[n].now < run[i].now + ttl
  }

  /** Grants and refusals by the history alone: a request is granted exactly when its
      paths are distinct and no plan that still holds was granted one of them. */
  lemma GrantedIff(run: seq<Event>, n: nat, ttl: int)
    requires n < |run| && Ordered(run) && run[n].Acquire?
    ensures Acquired(run, n, run[n].plan, ttl) <==>
      && Distinct(run[n].paths)
      && forall i, p :: 0 <= i < n && StillHolds(run, i, n, ttl) && p in run[i].paths ==> p !in run[n].paths
  {
    if Acquired(run, n, run[n].plan, ttl) {
      forall i, p | 0 <= i < n && StillHolds(run, i, n, ttl) && p in run[i].paths ensures p !in run[n].paths {
        if p in run[n].paths { TakeoverNeedsExpiry(run, i, n, p, ttl); }
      }
    } else if Distinct(run[n].paths) {
      var p :| p in run[n].paths && p in Live(Table(run, n, ttl), run[n].now);
      var i := RowsAreGrants(run, n, p, ttl);
      assert StillHolds(run, i, n, ttl);
    }
  }
}
