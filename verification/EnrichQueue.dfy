/** The retry queue: the enrich_jobs table of internal/storage/store.go, and the
    bound its counters give over whole runs. */
module EnrichQueue {
  import opened Text

  const ATTEMPTS_MAX: nat := 5

  datatype State = Pending | Running | Done | Failed | Skipped | Exhausted

  datatype Job = Job(state: State, attempts: nat, parent: string, enqueuedAt: int)

  type Rows = map<string, Job>

  predicate Retriable(j: Job) { (j.state == Failed || j.state == Skipped) && j.attempts < ATTEMPTS_MAX }

  predicate Claimable(j: Job) { (j.state == Pending || j.state == Skipped) && j.attempts < ATTEMPTS_MAX }

  function Enqueued(rows: Rows, path: string, parent: string, now: int): Rows {
    if Trim(path) == "" then rows
    else if path !in rows then rows[path := Job(Pending, 0, parent, now)]
    else
      var j := rows[path];
      var kept := if parent != "" then parent else j.parent;
      rows[path := if Retriable(j) then Job(Pending, j.attempts, kept, now) else j.(parent := kept)]
  }

  function Claimed(rows: Rows, path: string): Rows
    requires path in rows
  {
    rows[path := rows[path].(state := Running)]
  }

  function Finished(rows: Rows, path: string, state: State): Rows {
    if path !in rows then rows
    else if state == Done then rows[path := rows[path].(state := Done)]
    else
      var n := rows[path].attempts + 1;
      rows[path := rows[path].(attempts := n, state := if n >= ATTEMPTS_MAX then Exhausted else state)]
  }

  /** The oldest claimable row; the table does not say which one on a tie. */
  predicate Oldest(rows: Rows, path: string) {
    && path in rows && Claimable(rows[path])
    && forall p :: p in rows && Claimable(rows[p]) ==> rows[path].enqueuedAt <= rows[p].enqueuedAt
  }

  class JobTable {
    var rows: Rows

    constructor ()
      ensures rows == map[]
    {
      rows := map[];
    }

    method Enqueue(path: string, parent: string, now: int) returns (ok: bool)
      modifies this
      ensures rows == Enqueued(old(rows), path, parent, now)
      ensures ok <==> Trim(path) != ""
      ensures ok && path in old(rows) ==>
        var j := old(rows)[path];
        rows[path] ==
          if (j.state == Failed || j.state == Skipped) && j.attempts < 5
          then Job(Pending, j.attempts, rows[path].parent, now) else j.(parent := rows[path].parent)
    {
      if Trim(path) == "" { return false; }
      if path !in rows {
        rows := rows[path := Job(Pending, 0, parent, now)];
        return true;
      }
      var j := rows[path];
      var kept := if parent != "" then parent else j.parent;
      if Retriable(j) {
        rows := rows[path := Job(Pending, j.attempts, kept, now)];
      } else {
        rows := rows[path := j.(parent := kept)];
      }
      return true;
    }

    /** The oldest of the rows still in question. */
    method OldestOf(left: set<string>) returns (best: string)
      requires left != {} && left <= rows.Keys
      ensures best in left && forall p :: p in left ==> rows[best].enqueuedAt <= rows[p].enqueuedAt
      decreases left
    {
      best :| best in left;
      if left != {best} {
        var other := OldestOf(left - {best});
        if rows[other].enqueuedAt < rows[best].enqueuedAt { best := other; }
      }
    }

    method Claim() returns (path: Option<string>)
      modifies this
      ensures path.None? <==> forall p :: p in old(rows) ==> !Claimable(old(rows)[p])
      ensures path.None? ==> rows == old(rows)
      ensures path.None? ==>
        forall p :: p in rows && (rows[p].state == Pending || rows[p].state == Skipped) ==> rows[p].attempts >= 5
      ensures path.Some? ==> Oldest(old(rows), path.value) && rows == Claimed(old(rows), path.value)
      ensures path.Some? ==>
        var j := old(rows)[path.value];
        (j.state == Pending || j.state == Skipped) && j.attempts < 5
    {
      var open := set p | p in rows && Claimable(rows[p]);
      if open == {} {
        assert forall p :: p in rows && Claimable(rows[p]) ==> p in open;
        return None;
      }
      var best := OldestOf(open);
      rows := Claimed(rows, best);
      return Some(best);
    }

    method Finish(path: string, state: State)
      modifies this
      ensures rows == Finished(old(rows), path, state)
    {
      if path !in rows { return; }
      if state == Done {
        rows := rows[path := rows[path].(state := Done)];
        return;
      }
      var n := rows[path].attempts + 1;
      rows := rows[path := rows[path].(attempts := n, state := if n >= ATTEMPTS_MAX then Exhausted else state)];
    }
  }

  // ---- Runs ----

  /** What happens to the queue: new work, a worker's claim, the end of a claim. */
  datatype Event =
    | Enqueue(path: string, parent: string, now: int)
    | Claim(path: string)
    | Finish(path: string, state: State)

  /** The rows, with the claims not finished yet and all claims so far. */
  datatype Queue = Queue(rows: Rows, open: multiset<string>, claims: multiset<string>)

  /** A worker finishes only what it claimed, in one of the three ways a run ends. */
  predicate Possible(q: Queue, e: Event) {
    match e
    case Enqueue(_, _, _) => true
    case Claim(p) => Oldest(q.rows, p)
    case Finish(p, s) => p in q.open && (s == Done || s == Failed || s == Skipped)
  }

  function After(q: Queue, e: Event): Queue
    requires Possible(q, e)
  {
    match e
    case Enqueue(p, parent, now) => q.(rows := Enqueued(q.rows, p, parent, now))
    case Claim(p) => Queue(Claimed(q.rows, p), q.open + multiset{p}, q.claims + multiset{p})
    case Finish(p, s) => Queue(Finished(q.rows, p, s), q.open - multiset{p}, q.claims)
  }

  predicate Reaches(q: Queue, run: seq<Event>, q': Queue)
    decreases |run|
  {
    if run == [] then q == q'
    else Possible(q, run[0]) && Reaches(After(q, run[0]), run[1..], q')
  }

  const EMPTY: Queue := Queue(map[], multiset{}, multiset{})

  /** The counters of one path. */
  predicate Counted(q: Queue, p: string) {
    if p !in q.rows then q.open[p] == 0 && q.claims[p] == 0
    else
      var j := q.rows[p];
      && q.open[p] == (if j.state == Running then 1 else 0)
      && q.claims[p] == j.attempts + q.open[p] + (if j.state == Done then 1 else 0)
      && j.attempts + q.open[p] <= ATTEMPTS_MAX
      && (j.attempts == ATTEMPTS_MAX <==> j.state == Exhausted)
  }

  ghost predicate Inv(q: Queue) {
    (forall p :: Counted(q, p)) && (forall p :: p in q.rows ==> Trim(p) != "")
  }

  lemma StepKeepsInv(q: Queue, e: Event)
    requires Inv(q) && Possible(q, e)
    ensures Inv(After(q, e))
  {
    forall p ensures Counted(After(q, e), p) {
      CountStep(q, e, p);
    }
  }

  lemma CountStep(q: Queue, e: Event, p: string)
    requires Counted(q, p) && Counted(q, e.path) && Possible(q, e)
    ensures Counted(After(q, e), p)
  {}

  lemma {:induction false} RunKeepsInv(q: Queue, run: seq<Event>, q': Queue)
    requires Inv(q) && Reaches(q, run, q')
    ensures Inv(q')
    decreases |run|
  {
    if run != [] {
      StepKeepsInv(q, run[0]);
      RunKeepsInv(After(q, run[0]), run[1..], q');
    }
  }

  /** In every queue a run reaches: at most one open claim a path, attempts and open
      claims within the limit, the limit reached exactly when exhausted, and at most
      five claims a path ever. */
  lemma QueueBound(run: seq<Event>, q: Queue, p: string)
    requires Reaches(EMPTY, run, q)
    ensures q.open[p] <= 1 && q.claims[p] <= ATTEMPTS_MAX
    ensures p in q.rows ==>
      && q.rows[p].attempts + q.open[p] <= ATTEMPTS_MAX
      && (q.rows[p].attempts == ATTEMPTS_MAX <==> q.rows[p].state == Exhausted)
      && (q.rows[p].state == Running <==> q.open[p] == 1)
  {
    forall x ensures Counted(EMPTY, x) {}
    RunKeepsInv(EMPTY, run, q);
    assert Counted(q, p);
  }

  lemma TerminalStep(q: Queue, e: Event, p: string)
    requires Counted(q, p) && Possible(q, e) && p in q.rows
    requires q.rows[p].state == Done || q.rows[p].state == Exhausted
    ensures var n := After(q, e);
      p in n.rows && n.rows[p].state == q.rows[p].state
      && n.rows[p].attempts == q.rows[p].attempts && n.claims[p] == q.claims[p]
  {}

  /** Done and exhausted are never left. */
  lemma {:induction false} TerminalStays(q: Queue, run: seq<Event>, q': Queue, p: string)
    requires Inv(q) && Reaches(q, run, q')
    requires p in q.rows && (q.rows[p].state == Done || q.rows[p].state == Exhausted)
    ensures p in q'.rows && q'.rows[p].state == q.rows[p].state
    ensures q'.rows[p].attempts == q.rows[p].attempts && q'.claims[p] == q.claims[p]
    decreases |run|
  {
    if run != [] {
      assert Counted(q, p);
      StepKeepsInv(q, run[0]);
      TerminalStep(q, run[0], p);
      hide Counted, Possible, After;
      TerminalStays(After(q, run[0]), run[1..], q', p);
    }
  }

  // ---- Draining ----

  function CountClaims(run: seq<Event>): nat {
    if run == [] then 0 else (if run[0].Claim? then 1 else 0) + CountClaims(run[1..])
  }

  lemma {:induction false} ClaimsCounted(q: Queue, run: seq<Event>, q': Queue)
    requires Reaches(q, run, q')
    ensures |q'.claims| == |q.claims| + CountClaims(run)
    decreases |run|
  {
    if run != [] { ClaimsCounted(After(q, run[0]), run[1..], q'); }
  }

  lemma {:induction false} BoundedSize(m: multiset<string>, paths: set<string>, k: nat)
    requires forall p :: m[p] <= k && (p in m ==> p in paths)
    ensures |m| <= k * |paths|
    decreases |paths|
  {
    if paths == {} {
      assert m == multiset{};
    } else {
      var p :| p in paths;
      var rest := m[p := 0];
      BoundedSize(rest, paths - {p}, k);
      assert |rest| == |m| - m[p];
      assert k * |paths| == k * |paths - {p}| + k;
    }
  }

  /** A fixed set of paths drains: however the calls interleave, a worker's claim can
      succeed at most five times for each of them. */
  lemma QueueDrains(run: seq<Event>, q: Queue, paths: set<string>)
    requires Reaches(EMPTY, run, q) && q.rows.Keys <= paths
    ensures CountClaims(run) <= ATTEMPTS_MAX * |paths|
  {
    forall p ensures q.claims[p] <= ATTEMPTS_MAX && (p in q.claims ==> p in paths) {
      QueueBound(run, q, p);
      forall x ensures Counted(EMPTY, x) {}
      RunKeepsInv(EMPTY, run, q);
      assert Counted(q, p);
    }
    ClaimsCounted(EMPTY, run, q);
    BoundedSize(q.claims, paths, ATTEMPTS_MAX);
  }
}
