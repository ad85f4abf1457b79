/** The executor: internal/executor/direct_fs.go over the primitives of path_guard.go.
    Every system call may fail, as the oracle `fails` tells for each sub-step, and so
    may every write of a log row. */
module Executor {
  import opened Text
  import opened Paths
  import opened Plans
  import opened VaultOps
  import opened Effects
  import PathLocks

  datatype LogRow = LogRow(
    plan: string, job: string, kind: OpKind, target: string,
    beforeHash: string, afterHash: string, reason: string, applied: bool)

  datatype AppliedOp = AppliedOp(id: string, target: string, afterHash: string)

  datatype Outcome<+T> = Ok(value: T) | Err(failure: Failure)

  function AppliedRow(plan: Plan, op: Operation, afterHash: string): LogRow {
    LogRow(plan.id, plan.jobId, op.kind, op.target, op.beforeHash, afterHash, op.reason, true)
  }

  function FailedRow(plan: Plan, op: Operation): LogRow {
    LogRow(plan.id, plan.jobId, op.kind, op.target, op.beforeHash, "", op.reason, false)
  }

  function FailedRows(plan: Plan, ops: seq<Operation>): (r: seq<LogRow>)
    ensures |r| == |ops| && forall i :: 0 <= i < |r| ==> r[i] == FailedRow(plan, ops[i])
  {
    if ops == [] then [] else [FailedRow(plan, ops[0])] + FailedRows(plan, ops[1..])
  }

  const PROPOSAL_REASON: string := "proposal"

  /** The rows `b` with some of them left out. */
  ghost predicate Thinned(a: seq<LogRow>, b: seq<LogRow>)
    decreases |b|
  {
    if b == [] then a == []
    else
      var n, m := |a| - 1, |b| - 1;
      Thinned(a, b[..m]) || (a != [] && a[n] == b[m] && Thinned(a[..n], b[..m]))
  }

  lemma ThinnedMore(a: seq<LogRow>, b: seq<LogRow>, row: LogRow)
    requires Thinned(a, b)
    ensures Thinned(a, b + [row]) && Thinned(a + [row], b + [row])
  {
    assert (b + [row])[..|b|] == b && (a + [row])[..|a|] == a;
  }

  lemma {:induction false} ThinnedSelf(b: seq<LogRow>)
    ensures Thinned(b, b)
  {
    if b != [] { ThinnedSelf(b[..|b| - 1]); }
  }

  lemma RowsNone(log: seq<LogRow>, rows: seq<LogRow>)
    ensures log + [] == log && rows[..0] == []
  {}

  lemma RowNext(log0: seq<LogRow>, kept: seq<LogRow>, rows: seq<LogRow>, i: nat, row: LogRow)
    requires i < |rows| && rows[i] == row
    ensures log0 + kept + [row] == log0 + (kept + [row]) && rows[..i + 1] == rows[..i] + [row]
  {}

  lemma RowsEnd(log0: seq<LogRow>, kept: seq<LogRow>, rows: seq<LogRow>)
    ensures rows[..|rows|] == rows && (log0 + kept)[|log0|..] == kept && log0 <= log0 + kept
  {}

  /** The log of a run that got through `n` operations: their rows, and failed rows of the
      others as far as they could be written. */
  ghost predicate LoggedSoFar(plan: Plan, v: Vault, n: nat, hash: Hasher, log0: seq<LogRow>, log: seq<LogRow>)
    requires n <= |plan.ops|
  {
    var rows := log0 + Rows(plan, v, n, hash);
    rows <= log && Thinned(log[|rows|..], FailedRows(plan, plan.ops[n..]))
  }

  lemma LoggedOnce(plan: Plan, v: Vault, n: nat, hash: Hasher, log0: seq<LogRow>, log1: seq<LogRow>, log: seq<LogRow>)
    requires n <= |plan.ops| && log1 == log0 + Rows(plan, v, n, hash) && log1 <= log
    requires Thinned(log[|log1|..], FailedRows(plan, plan.ops[n..]))
    ensures LoggedSoFar(plan, v, n, hash, log0, log)
  {}

  lemma LoggedWhole(plan: Plan, v: Vault, hash: Hasher, log0: seq<LogRow>, log: seq<LogRow>)
    requires log == log0 + Rows(plan, v, |plan.ops|, hash)
    ensures LoggedSoFar(plan, v, |plan.ops|, hash, log0, log)
  {
    hide Rows;
    assert log[|log|..] == [] && plan.ops[|plan.ops|..] == [];
  }

  /** What operation `i` reports: its landing text's digest. */
  function ReportOf(v: Vault, ops: seq<Operation>, i: nat, hash: Hasher): AppliedOp
    requires i < |ops|
  {
    AppliedOp(ops[i].id, ops[i].target, hash(LandingText(Before(v, ops, i), ops[i])))
  }

  function RowOf(plan: Plan, v: Vault, i: nat, hash: Hasher): LogRow
    requires i < |plan.ops|
  {
    AppliedRow(plan, plan.ops[i], ReportOf(v, plan.ops, i, hash).afterHash)
  }

  function Reports(v: Vault, ops: seq<Operation>, n: nat, hash: Hasher): seq<AppliedOp>
    requires n <= |ops|
  {
    if n == 0 then [] else Reports(v, ops, n - 1, hash) + [ReportOf(v, ops, n - 1, hash)]
  }

  function Rows(plan: Plan, v: Vault, n: nat, hash: Hasher): seq<LogRow>
    requires n <= |plan.ops|
  {
    if n == 0 then [] else Rows(plan, v, n - 1, hash) + [RowOf(plan, v, n - 1, hash)]
  }

  /** The vaults that can be seen while operation `i` of a plan runs. */
  function PlanStages(v: Vault, ops: seq<Operation>, i: nat): set<Vault>
    requires i < |ops|
  {
    Stages(Before(v, ops, i), ops[i])
  }

  /** One operation took the vault from `v` to `w`, past the vaults of `s1`. */
  ghost predicate Ran(v: Vault, op: Operation, w: Vault, s0: set<Vault>, s1: set<Vault>, hash: Hasher) {
    if OpFailure(v, op, hash).Some? then w == v && s1 == s0
    else w in Stages(v, op) && s1 <= s0 + Stages(v, op)
  }

  /** `uniqueStrings`: no empty path, no path twice. */
  function Unique(values: seq<string>): (r: seq<string>)
    ensures Distinct(r) && forall p :: p in r <==> p in values && p != ""
  {
    if values == [] then []
    else
      var r := Unique(values[..|values| - 1]);
      var v := values[|values| - 1];
      assert values == values[..|values| - 1] + [v];
      if v == "" || v in r then r else r + [v]
  }

  class DirectFS {
    const hash: Hasher
    const fails: nat -> bool
    const logFails: nat -> bool
    const locks: PathLocks.LockTable

    var notes: Vault
    var log: seq<LogRow>
    var step: nat

    /** How many log rows were written or tried. */
    var logStep: nat

    /** Every vault there was between two sub-steps. */
    ghost var seen: set<Vault>

    constructor (hash: Hasher, fails: nat -> bool, logFails: nat -> bool, locks: PathLocks.LockTable, notes: Vault)
      ensures this.hash == hash && this.fails == fails && this.logFails == logFails && this.locks == locks
      ensures this.notes == notes && log == [] && logStep == 0 && seen == {notes}
    {
      this.hash, this.fails, this.logFails, this.locks := hash, fails, logFails, locks;
      this.notes, log, step, logStep, seen := notes, [], 0, 0, {notes};
    }

    ghost predicate Faultless() { forall n :: !fails(n) }

    ghost predicate LogWorks() { forall n :: !logFails(n) }

    /** Every write of a row from the `n`-th on succeeds. */
    ghost predicate WorksFrom(n: nat) { forall k :: k >= n ==> !logFails(k) }

    lemma LogWorksFrom(n: nat)
      ensures LogWorks() ==> WorksFrom(n) && !logFails(n)
    {}

    /** One system call that may fail. */
    method Attempt() returns (ok: bool)
      modifies `step
      ensures (Faultless() ==> ok) && step == old(step) + 1 && ok == !fails(old(step))
    {
      ok := !fails(step);
      step := step + 1;
    }

    method Put(path: string, text: string)
      modifies `notes, `seen
      ensures notes == old(notes)[path := text] && seen == old(seen) + {notes}
    {
      notes := notes[path := text];
      seen := seen + {notes};
    }

    method Drop(path: string)
      modifies `notes, `seen
      ensures notes == old(notes) - {path} && seen == old(seen) + {notes}
    {
      notes := notes - {path};
      seen := seen + {notes};
    }

    // ---- path_guard.go ----

    /** Write a temporary file, then link it: the link never replaces a note. */
    method SafeCreateAtomic(path: string, text: string) returns (f: Option<Failure>)
      modifies `notes, `seen, `step
      ensures f.None? ==> path !in old(notes) && notes == old(notes)[path := text] && seen == old(seen) + {notes}
      ensures f.Some? ==> notes == old(notes) && seen == old(seen)
      ensures Faultless() ==> f == if path in old(notes) then Some(Exists) else None
    {
      var dirs := Attempt();
      if !dirs { return Some(Fault); }
      var temp := Attempt();
      if !temp { return Some(Fault); }
      var link := Attempt();
      if path in notes { return Some(Exists); }
      if !link { return Some(Fault); }
      Put(path, text);
      var _ := Attempt();
      return None;
    }

    /** Link, then unlink; a failed unlink is rolled back as far as that works. */
    method SafeMoveAtomic(source: string, dest: string) returns (f: Option<Failure>)
      requires source in notes
      modifies `notes, `seen, `step
      ensures var linked := old(notes)[dest := old(notes)[source]];
        && (f.None? ==> dest !in old(notes) && notes == linked - {source})
        && (f.Some? ==> notes == old(notes) || (dest !in old(notes) && notes == linked))
        && (if dest in old(notes) then seen == old(seen)
            else seen <= old(seen) + {old(notes), linked, linked - {source}})
      ensures Faultless() ==> f == if dest in old(notes) then Some(Exists) else None
    {
      var dirs := Attempt();
      if !dirs { return Some(Fault); }
      var link := Attempt();
      if dest in notes { return Some(Exists); }
      if !link { return Some(Fault); }
      Put(dest, notes[source]);
      var unlink := Attempt();
      if !unlink {
        var rollback := Attempt();
        if rollback {
          Drop(dest);
          assert notes == old(notes);
        }
        return Some(Fault);
      }
      Drop(source);
      return None;
    }

    /** Write a temporary file, check the note again, then rename over it. */
    method SafeWriteReplace(path: string, text: string, guard: string) returns (f: Option<Failure>)
      modifies `notes, `seen, `step
      ensures f.None? ==> path in old(notes) && notes == old(notes)[path := text] && seen == old(seen) + {notes}
      ensures f.Some? ==> notes == old(notes) && seen == old(seen)
      ensures Faultless() && path in old(notes) && old(notes)[path] == guard ==> f.None?
    {
      var temp := Attempt();
      if !temp { return Some(Fault); }
      var stat := Attempt();
      if !stat || path !in notes { return Some(Fault); }
      if notes[path] != guard { return Some(HashConflict); }
      var rename := Attempt();
      if !rename { return Some(Fault); }
      Put(path, text);
      return None;
    }

    // ---- Reading ----

    method ReadGuarded(op: Operation) returns (r: Outcome<string>)
      modifies `step
      ensures r.Ok? ==> GuardedRead(notes, op, hash) == None && r.value == notes[op.target]
      ensures GuardedRead(notes, op, hash).Some? ==> r.Err?
      ensures Faultless() && r.Err? ==> GuardedRead(notes, op, hash) == Some(r.failure)
    {
      if !ValidVaultPath(op.target) { return Err(BadPath); }
      var read := Attempt();
      if op.target !in notes { return Err(Missing); }
      if !read { return Err(Fault); }
      if hash(notes[op.target]) != op.beforeHash { return Err(HashConflict); }
      return Ok(notes[op.target]);
    }

    // ---- Operations ----

    /** Success is reported only with its row in the log. */
    method RecordApplied(plan: Plan, op: Operation, afterHash: string) returns (r: Outcome<AppliedOp>)
      modifies `log, `logStep
      ensures r.Ok? ==>
        log == old(log) + [AppliedRow(plan, op, afterHash)] && r.value == AppliedOp(op.id, op.target, afterHash)
      ensures r.Err? ==> log == old(log)
      ensures r.Ok? <==> !logFails(old(logStep))
      ensures logStep == old(logStep) + 1
    {
      var row := AppliedRow(plan, op, afterHash);
      logStep := logStep + 1;
      if logFails(logStep - 1) { return Err(Fault); }
      log := log + [row];
      return Ok(AppliedOp(op.id, op.target, afterHash));
    }

    method MakeNote(plan: Plan, op: Operation) returns (r: Outcome<AppliedOp>)
      requires Creates(op)
      modifies `notes, `seen, `step, `log, `logStep
      ensures Ran(old(notes), op, notes, old(seen), seen, hash)
      ensures r.Ok? ==> Reported(plan, op, old(notes), notes, old(log), log, r.value)
      ensures r.Ok? ==> Leaves(old(notes), op, notes)
      ensures r.Err? ==> log == old(log)
      ensures Faultless() && LogWorks() && r.Err? ==> OpFailure(old(notes), op, hash) == Some(r.failure)
      ensures Faultless() && r.Err? && OpFailure(old(notes), op, hash) == None ==> notes == Effect(old(notes), op)
      ensures r.Ok? || (Faultless() && OpFailure(old(notes), op, hash) == None) ==>
        logStep == old(logStep) + 1 && (r.Ok? <==> !logFails(old(logStep)))
    {
      hide Leaves;
      if OpFailure(notes, op, hash) == None { EffectLeaves(notes, op, hash); }
      hide ValidVaultPath;
      if !ValidVaultPath(op.target) { return Err(BadPath); }
      var stat := Attempt();
      if op.target in notes { return Err(Exists); }
      if !stat { return Err(Fault); }
      var content := ContentOf(op.payload);
      if content.None? { return Err(BadPayload); }
      if content.value == "" { return Err(EmptyContent); }
      var f := SafeCreateAtomic(op.target, content.value);
      if f.Some? { return Err(f.value); }
      r := RecordApplied(plan, op, hash(content.value));
    }

    method EditNote(plan: Plan, op: Operation) returns (r: Outcome<AppliedOp>)
      requires Edits(op)
      modifies `notes, `seen, `step, `log, `logStep
      ensures Ran(old(notes), op, notes, old(seen), seen, hash)
      ensures r.Ok? ==> Reported(plan, op, old(notes), notes, old(log), log, r.value)
      ensures r.Ok? ==> Leaves(old(notes), op, notes)
      ensures r.Err? ==> log == old(log)
      ensures Faultless() && LogWorks() && r.Err? ==> OpFailure(old(notes), op, hash) == Some(r.failure)
      ensures Faultless() && r.Err? && OpFailure(old(notes), op, hash) == None ==> notes == Effect(old(notes), op)
      ensures r.Ok? || (Faultless() && OpFailure(old(notes), op, hash) == None) ==>
        logStep == old(logStep) + 1 && (r.Ok? <==> !logFails(old(logStep)))
    {
      hide Leaves;
      if OpFailure(notes, op, hash) == None { EffectLeaves(notes, op, hash); }
      hide ValidVaultPath;
      var current := ReadGuarded(op);
      if current.Err? { return Err(current.failure); }
      var content := ContentOf(op.payload);
      if content.None? { return Err(BadPayload); }
      var next := if op.kind == AppendNote then current.value + content.value else content.value;
      var f := SafeWriteReplace(op.target, next, current.value);
      if f.Some? { return Err(f.value); }
      r := RecordApplied(plan, op, hash(next));
    }

    method MoveOne(plan: Plan, op: Operation) returns (r: Outcome<AppliedOp>)
      requires op.kind == MoveNote
      modifies `notes, `seen, `step, `log, `logStep
      ensures Ran(old(notes), op, notes, old(seen), seen, hash)
      ensures r.Ok? ==> Reported(plan, op, old(notes), notes, old(log), log, r.value)
      ensures r.Ok? ==> Leaves(old(notes), op, notes)
      ensures r.Err? ==> log == old(log)
      ensures Faultless() && LogWorks() && r.Err? ==> OpFailure(old(notes), op, hash) == Some(r.failure)
      ensures Faultless() && r.Err? && OpFailure(old(notes), op, hash) == None ==> notes == Effect(old(notes), op)
      ensures r.Ok? || (Faultless() && OpFailure(old(notes), op, hash) == None) ==>
        logStep == old(logStep) + 1 && (r.Ok? <==> !logFails(old(logStep)))
    {
      hide Leaves;
      if OpFailure(notes, op, hash) == None { EffectLeaves(notes, op, hash); }
      hide ValidVaultPath, HasSuffix;
      var current := ReadGuarded(op);
      if current.Err? { return Err(current.failure); }
      var d := MoveOf(op.payload);
      if d.None? { return Err(BadPayload); }
      var dest := d.value.path;
      if !ValidVaultPath(dest) { return Err(BadPath); }
      var f := SafeMoveAtomic(op.target, dest);
      if f.Some? { return Err(f.value); }
      var reread := Attempt();
      if !reread { return Err(Fault); }
      var text := notes[dest];
      if d.value.note != "" {
        var next := MovedContent(text, d.value.note);
        f := SafeWriteReplace(dest, next, text);
        if f.Some? { return Err(f.value); }
        text := next;
      }
      assert notes == Effect(old(notes), op);
      r := RecordApplied(plan, op, hash(text));
    }

    /** A reported operation took full effect and left its row. */
    ghost predicate Reported(plan: Plan, op: Operation, v: Vault, w: Vault, log0: seq<LogRow>, log1: seq<LogRow>,
                             a: AppliedOp) {
      && OpFailure(v, op, hash) == None && w == Effect(v, op)
      && a == AppliedOp(op.id, op.target, hash(LandingText(v, op)))
      && log1 == log0 + [AppliedRow(plan, op, a.afterHash)]
    }

    method ApplyOperation(plan: Plan, op: Operation) returns (r: Outcome<AppliedOp>)
      modifies `notes, `seen, `step, `log, `logStep
      ensures Ran(old(notes), op, notes, old(seen), seen, hash)
      ensures r.Ok? ==> Reported(plan, op, old(notes), notes, old(log), log, r.value)
      ensures r.Ok? ==> Leaves(old(notes), op, notes)
      ensures r.Err? ==> log == old(log)
      ensures Faultless() && LogWorks() && r.Err? ==> OpFailure(old(notes), op, hash) == Some(r.failure)
      ensures Faultless() && r.Err? && OpFailure(old(notes), op, hash) == None ==> notes == Effect(old(notes), op)
      ensures r.Ok? || (Faultless() && OpFailure(old(notes), op, hash) == None) ==>
        logStep == old(logStep) + 1 && (r.Ok? <==> !logFails(old(logStep)))
    {
      hide Leaves;
      match op.kind {
        case CreateNote => r := MakeNote(plan, op);
        case WriteAgentReport => r := MakeNote(plan, op);
        case AppendNote => r := EditNote(plan, op);
        case RewriteNote => r := EditNote(plan, op);
        case MoveNote => r := MoveOne(plan, op);
        case _ => r := Err(Unsupported);
      }
    }

    // ---- Plans ----

    method PreflightApply(plan: Plan) returns (f: Option<Failure>)
      modifies `step
      ensures f.None? ==> GuardsHold(notes, plan.ops, hash)
      ensures Faultless() && f.Some? ==> !GuardsHold(notes, plan.ops, hash)
      ensures Faultless() && f.Some? ==> FailsFirst(notes, plan.ops, f.value, hash)
    {
      hide ValidVaultPath;
      for i := 0 to |plan.ops|
        invariant forall k :: 0 <= k < i ==> GuardFailure(notes, plan.ops[k], hash) == None
      {
        var op := plan.ops[i];
        assert forall e :: GuardFailure(notes, op, hash) == Some(e) ==> FailsAt(notes, plan.ops, i, e, hash);
        if Creates(op) {
          if !ValidVaultPath(op.target) { return Some(BadPath); }
          var stat := Attempt();
          if op.target in notes { return Some(Exists); }
          if !stat { return Some(Fault); }
        } else if Edits(op) {
          var current := ReadGuarded(op);
          if current.Err? { return Some(current.failure); }
        } else if op.kind == MoveNote {
          var current := ReadGuarded(op);
          if current.Err? { return Some(current.failure); }
          var d := MoveOf(op.payload);
          if d.None? { return Some(BadPayload); }
          if !ValidVaultPath(d.value.path) { return Some(BadPath); }
          var stat := Attempt();
          if d.value.path in notes { return Some(Exists); }
          if !stat { return Some(Fault); }
        }
      }
      return None;
    }

    /** Best effort: a row that cannot be written is left out. */
    method LogRemainingFailed(plan: Plan, ops: seq<Operation>)
      modifies `log, `logStep
      ensures WorksFrom(old(logStep)) ==> log == old(log) + FailedRows(plan, ops)
      ensures old(log) <= log && Thinned(log[|old(log)|..], FailedRows(plan, ops))
    {
      ghost var rows, works := FailedRows(plan, ops), WorksFrom(logStep);
      ghost var kept: seq<LogRow> := [];
      assert works ==> forall k :: k >= logStep ==> !logFails(k);
      RowsNone(log, rows);
      ThinnedSelf([]);
      hide *;
      for i := 0 to |ops|
        invariant logStep == old(logStep) + i && log == old(log) + kept
        invariant works ==> kept == rows[..i]
        invariant Thinned(kept, rows[..i])
      {
        var row := FailedRow(plan, ops[i]);
        RowNext(old(log), kept, rows, i, row);
        ThinnedMore(kept, rows[..i], row);
        if !logFails(logStep) {
          log, kept := log + [row], kept + [row];
        }
        logStep := logStep + 1;
      }
      RowsEnd(old(log), kept, rows);
    }

    /** The rows of the operations from `n` on, after those of the others. */
    method FailRest(plan: Plan, n: nat, ghost v: Vault, ghost log0: seq<LogRow>)
      requires n <= |plan.ops| && log == log0 + Rows(plan, v, n, hash)
      modifies `log, `logStep
      ensures LoggedSoFar(plan, v, n, hash, log0, log)
      ensures WorksFrom(old(logStep)) ==> log == log0 + AllRows(plan, v, n, hash)
    {
      hide Rows, AllRows, FailedRows, Thinned, LoggedSoFar, WorksFrom;
      ghost var log1 := log;
      LogRemainingFailed(plan, plan.ops[n..]);
      AllRowsAre(log0, plan, v, n, hash);
      LoggedOnce(plan, v, n, hash, log0, log1, log);
    }

    /** Operation `n`, unless the run was cancelled. */
    method RunNext(plan: Plan, n: nat, ghost v: Vault) returns (r: Outcome<AppliedOp>)
      requires n < |plan.ops| && notes == Before(v, plan.ops, n)
      requires forall k :: 0 <= k < n ==> OpFailure(Before(v, plan.ops, k), plan.ops[k], hash) == None
      modifies `notes, `seen, `step, `log, `logStep
      ensures notes == Before(v, plan.ops, n)
        || (notes in PlanStages(v, plan.ops, n) && OpFailure(Before(v, plan.ops, n), plan.ops[n], hash) == None)
      ensures forall s :: s in seen ==> s in old(seen) || Passed(v, plan.ops, s, hash)
      ensures r.Ok? ==>
        OpFailure(Before(v, plan.ops, n), plan.ops[n], hash) == None && notes == Before(v, plan.ops, n + 1)
      ensures r.Ok? ==> r.value == ReportOf(v, plan.ops, n, hash) && log == old(log) + [RowOf(plan, v, n, hash)]
      ensures r.Err? ==> log == old(log)
      ensures r.Ok? ==> logStep == old(logStep) + 1 && !logFails(old(logStep))
      ensures Faultless() && OpFailure(Before(v, plan.ops, n), plan.ops[n], hash) == None && r.Err? ==>
        notes == Before(v, plan.ops, n + 1) && logStep == old(logStep) + 1 && logFails(old(logStep))
    {
      hide OpFailure, Effect, LandingText, Stages, PlanStages, Fold, AppliedRow, Ran, Passed, Faultless, LogWorks,
        Leaves;
      FoldSnoc(v, plan.ops, n);
      var alive := Attempt();
      if !alive { return Err(Cancelled); }
      ghost var s0 := seen;
      r := ApplyOperation(plan, plan.ops[n]);
      PassedNow(v, plan.ops, n, notes, s0, seen, hash);
    }

    /** The operations, one by one, until one fails. One that fails only because its row
        cannot be written has taken effect all the same, and is logged as failed. */
    method ApplyAll(plan: Plan) returns (applied: seq<AppliedOp>, err: Option<Failure>)
      modifies `notes, `seen, `step, `log, `logStep
      ensures |applied| <= |plan.ops| && (err.None? <==> |applied| == |plan.ops|)
      ensures forall i :: 0 <= i < |applied| ==> OpFailure(Before(old(notes), plan.ops, i), plan.ops[i], hash) == None
      ensures applied == Reports(old(notes), plan.ops, |applied|, hash)
      ensures notes == Before(old(notes), plan.ops, |applied|)
        || (|applied| < |plan.ops| && notes in PlanStages(old(notes), plan.ops, |applied|))
      ensures notes == Before(old(notes), plan.ops, |applied|)
        || OpFailure(Before(old(notes), plan.ops, |applied|), plan.ops[|applied|], hash) == None
      ensures forall s :: s in seen ==> s in old(seen) || Passed(old(notes), plan.ops, s, hash)
      ensures LogWorks() ==> log == old(log) + AllRows(plan, old(notes), |applied|, hash)
      ensures LoggedSoFar(plan, old(notes), |applied|, hash, old(log), log)
      ensures Faultless() && LogWorks() && RunsClean(old(notes), plan.ops, hash) ==> err.None?
      ensures Faultless() && RunsClean(old(notes), plan.ops, hash) && err.Some? ==>
        notes == Before(old(notes), plan.ops, |applied| + 1) && logFails(old(logStep) + |applied|)
      ensures forall n :: old(logStep) <= n < old(logStep) + |applied| ==> !logFails(n)
      ensures WorksFrom(old(logStep) + |applied| + 1) && Faultless() && RunsClean(old(notes), plan.ops, hash) ==>
        log == old(log) + AllRows(plan, old(notes), |applied|, hash)
    {
      hide OpFailure, Effect, LandingText, Stages, PlanStages, Fold, FailedRow, AppliedRow, Ran, Passed, AllRows, Rows,
        Reports, FailedRows, Thinned, LoggedSoFar, Faultless, LogWorks, WorksFrom, Before;
      applied := [];
      ghost var v0, log0 := notes, log;
      BeforeNone(v0, plan.ops);
      NoRows(log0, plan, v0, hash);
      for i := 0 to |plan.ops|
        invariant |applied| == i && applied == Reports(v0, plan.ops, i, hash)
        invariant notes == Before(v0, plan.ops, i)
        invariant forall k :: 0 <= k < i ==> OpFailure(Before(v0, plan.ops, k), plan.ops[k], hash) == None
        invariant forall s :: s in seen ==> s in old(seen) || Passed(v0, plan.ops, s, hash)
        invariant log == log0 + Rows(plan, v0, i, hash)
        invariant logStep == old(logStep) + i && forall n :: old(logStep) <= n < logStep ==> !logFails(n)
      {
        LogWorksFrom(logStep);
        var r := RunNext(plan, i, v0);
        LogWorksFrom(logStep);
        if r.Err? {
          FailRest(plan, i, v0, log0);
          return applied, Some(r.failure);
        }
        applied := applied + [r.value];
        OneMoreRow(log0, plan, v0, i, hash);
      }
      assert plan.ops[|plan.ops|..] == [] && log + [] == log;
      AllRowsAre(log0, plan, v0, |plan.ops|, hash);
      LoggedWhole(plan, v0, hash, log0, log);
      return applied, None;
    }

    /** Nothing fails, and the plan's locks are free. */
    ghost predicate Unhindered(rows: PathLocks.Rows, plan: Plan, now: int) {
      Faultless() && LogWorks() && PathLocks.Grants(rows, Unique(plan.targets), now)
    }

    /** `Apply`: take the locks, check every guard, then run the operations. */
    method Apply(plan: Plan, now: int) returns (applied: seq<AppliedOp>, err: Option<Failure>, ghost started: bool)
      modifies `notes, `seen, `step, `log, `logStep, locks
      ensures locks.rows == AfterCall(old(locks.rows), plan, now)
      ensures !started ==> notes == old(notes) && seen == old(seen) && log == old(log) && applied == [] && err.Some?
      ensures started ==>
        GuardsHold(old(notes), plan.ops, hash) && PathLocks.Grants(old(locks.rows), Unique(plan.targets), now)
      ensures (Faultless() && PathLocks.Grants(old(locks.rows), Unique(plan.targets), now)
        && GuardsHold(old(notes), plan.ops, hash)) ==>
        started
      ensures !started && Faultless() ==>
        if PathLocks.Grants(old(locks.rows), Unique(plan.targets), now)
        then FailsFirst(old(notes), plan.ops, err.value, hash) else err.value == Locked
      ensures |applied| <= |plan.ops| && (started ==> (err.None? <==> |applied| == |plan.ops|))
      ensures forall i :: 0 <= i < |applied| ==> OpFailure(Before(old(notes), plan.ops, i), plan.ops[i], hash) == None
      ensures applied == Reports(old(notes), plan.ops, |applied|, hash)
      ensures notes == Before(old(notes), plan.ops, |applied|)
        || (|applied| < |plan.ops| && notes in PlanStages(old(notes), plan.ops, |applied|))
      ensures notes == Before(old(notes), plan.ops, |applied|)
        || OpFailure(Before(old(notes), plan.ops, |applied|), plan.ops[|applied|], hash) == None
      ensures forall s :: s in seen ==> s in old(seen) || Passed(old(notes), plan.ops, s, hash)
      ensures started && LogWorks() ==>
        log == old(log) + AllRows(plan, old(notes), |applied|, hash)
      ensures started ==> LoggedSoFar(plan, old(notes), |applied|, hash, old(log), log)
      ensures Unhindered(old(locks.rows), plan, now) ==>
        (err.None? <==> GuardsHold(old(notes), plan.ops, hash) && RunsClean(old(notes), plan.ops, hash))
      ensures Unhindered(old(locks.rows), plan, now) && DigestsChange(old(notes), plan.ops, hash) ==>
        (err.None? <==> EachRuns(old(notes), plan.ops, hash) && Disjoint(plan.ops))
      ensures started && Faultless() && RunsClean(old(notes), plan.ops, hash) && err.Some? ==>
        notes == Before(old(notes), plan.ops, |applied| + 1) && logFails(old(logStep) + |applied|)
      ensures started ==> forall n :: old(logStep) <= n < old(logStep) + |applied| ==> !logFails(n)
      ensures (started && WorksFrom(old(logStep) + |applied| + 1) && Faultless()
        && RunsClean(old(notes), plan.ops, hash)) ==>
        log == old(log) + AllRows(plan, old(notes), |applied|, hash)
      ensures RanAs(old(notes), plan.ops, applied, notes, hash)
      ensures started && err.None? && Apart(plan.ops) ==> AllLeft(old(notes), plan.ops, notes)
    {
      hide GuardFailure, OpFailure, Effect, LandingText, Stages, Fold, PathLocks.Grants, PathLocks.Live, LoggedSoFar,
        DigestsChange, EachRuns, Disjoint, RanAs, Apart, AllLeft, FailsFirst;
      if DigestsChange(notes, plan.ops, hash) { PlanRunsIff(notes, plan.ops, hash); }
      BeforeNone(notes, plan.ops);
      RunMeans(notes, plan.ops, [], notes, hash);
      var granted := locks.Acquire(Unique(plan.targets), plan.id, now);
      if !granted { return [], Some(Locked), false; }
      var f := PreflightApply(plan);
      if f.Some? {
        locks.Release(plan.id);
        return [], f, false;
      }
      applied, err := ApplyAll(plan);
      RunMeans(old(notes), plan.ops, applied, notes, hash);
      locks.Release(plan.id);
      return applied, err, true;
    }

    /** The lock table after a call: what the plan took it has given back. */
    ghost function AfterCall(rows: PathLocks.Rows, plan: Plan, now: int): PathLocks.Rows {
      if PathLocks.Grants(rows, Unique(plan.targets), now)
      then PathLocks.AfterRelease(PathLocks.AfterAcquire(rows, Unique(plan.targets), plan.id, now, locks.ttl), plan.id)
      else rows
    }

    // ---- Proposals ----

    /** `ApplyAsProposal`: a high-risk plan only ever writes its proposal note, whose
        text is `content` when it can be rendered. */
    method ApplyAsProposal(plan: Plan, path: string, content: Option<string>, now: int) returns (r: Outcome<AppliedOp>)
      modifies `notes, `seen, `step, `log, `logStep, locks
      ensures notes == old(notes)
        || (path !in old(notes) && content.Some? && plan.risk == High && notes == old(notes)[path := content.value])
      ensures seen <= old(seen) + {notes}
      ensures r.Ok? ==> notes != old(notes) && r.value == AppliedOp(plan.id, path, hash(content.value))
      ensures r.Ok? ==> log == old(log) + [LogRow(
        plan.id, plan.jobId, WriteProposal, path, "", hash(content.value), PROPOSAL_REASON, true)]
      ensures r.Err? ==> log == old(log)
      ensures r.Ok? ==> plan.risk == High && ValidVaultPath(path) && PathLocks.Grants(old(locks.rows), [path], now)
      ensures Faultless() && LogWorks() ==>
        (r.Ok? <==> (plan.risk == High && ValidVaultPath(path) && path !in old(notes) && content.Some?
          && PathLocks.Grants(old(locks.rows), [path], now)))
      ensures locks.rows == old(locks.rows)
        || locks.rows ==
          PathLocks.AfterRelease(PathLocks.AfterAcquire(old(locks.rows), [path], plan.id, now, locks.ttl), plan.id)
    {
      hide ValidVaultPath;
      var alive := Attempt();
      if !alive { return Err(Cancelled); }
      if plan.risk != High { return Err(Unsupported); }
      if !ValidVaultPath(path) { return Err(BadPath); }
      var stat := Attempt();
      if path in notes { return Err(Exists); }
      if !stat { return Err(Fault); }
      var granted := locks.Acquire([path], plan.id, now);
      if !granted { return Err(Locked); }
      if content.None? {
        locks.Release(plan.id);
        return Err(BadPayload);
      }
      var f := SafeCreateAtomic(path, content.value);
      if f.Some? {
        locks.Release(plan.id);
        return Err(f.value);
      }
      var op := Operation(plan.id, WriteProposal, path, "", Content(content.value), PROPOSAL_REASON, High);
      r := RecordApplied(plan, op, hash(content.value));
      locks.Release(plan.id);
    }

    // ---- Previews ----

    /** `Prepare`: the preview's digests and the plan's guards. */
    method Prepare(plan: Plan) returns (r: Outcome<(seq<string>, Plan)>)
      modifies `step
      ensures r.Ok? ==> forall i :: 0 <= i < |plan.ops| ==> PrepareFailure(notes, plan.ops[i]) == None
      ensures r.Ok? ==> r.value.1 == plan.(ops := PreparedAll(notes, plan.ops, hash)) && |r.value.0| == |plan.ops|
      ensures r.Ok? ==> forall i :: 0 <= i < |plan.ops| ==> r.value.0[i] == hash(LandingText(notes, plan.ops[i]))
      ensures r.Ok? ==> forall i :: 0 <= i < |plan.ops| ==> Previewed(notes, plan.ops[i], r.value.0[i], hash)
      ensures Faultless() && r.Err? ==> exists i :: 0 <= i < |plan.ops| && PrepareFailure(notes, plan.ops[i]).Some?
    {
      var digests: seq<string> := [];
      var ops := plan.ops;
      hide PrepareFailure, LandingText, Prepared, Previewed;
      for i := 0 to |plan.ops|
        invariant |ops| == |plan.ops| && |digests| == i
        invariant forall k :: 0 <= k < i ==> PrepareFailure(notes, plan.ops[k]) == None
        invariant forall k :: 0 <= k < i ==> ops[k] == Prepared(notes, plan.ops[k], hash)
        invariant forall k :: i <= k < |ops| ==> ops[k] == plan.ops[k]
        invariant forall k :: 0 <= k < i ==>
          digests[k] == hash(LandingText(notes, plan.ops[k])) && Previewed(notes, plan.ops[k], digests[k], hash)
      {
        var alive := Attempt();
        if !alive { return Err(Cancelled); }
        var p := PrepareOperation(plan.ops[i]);
        if p.Err? { return Err(p.failure); }
        PreviewedAs(notes, plan.ops[i], hash);
        ops := ops[i := p.value.1];
        digests := digests + [p.value.0];
      }
      assert ops == PreparedAll(notes, plan.ops, hash);
      return Ok((digests, plan.(ops := ops)));
    }

    method PrepareOperation(op: Operation) returns (r: Outcome<(string, Operation)>)
      modifies `step
      ensures r.Ok? ==> PrepareFailure(notes, op) == None
      ensures r.Ok? ==> r.value == (hash(LandingText(notes, op)), Prepared(notes, op, hash))
      ensures Faultless() && r.Err? ==> PrepareFailure(notes, op) == Some(r.failure)
    {
      hide ValidVaultPath, MovedContent;
      if !Creates(op) && !Mutates(op) { return Err(Unsupported); }
      if !ValidVaultPath(op.target) { return Err(BadPath); }
      var read := Attempt();
      if Creates(op) {
        if op.target in notes { return Err(Exists); }
        if !read { return Err(Fault); }
      } else {
        if op.target !in notes { return Err(Missing); }
        if !read { return Err(Fault); }
      }
      if op.kind == MoveNote {
        var d := MoveOf(op.payload);
        if d.None? { return Err(BadPayload); }
        if !ValidVaultPath(d.value.path) { return Err(BadPath); }
        var stat := Attempt();
        if d.value.path in notes { return Err(Exists); }
        if !stat { return Err(Fault); }
        var current := notes[op.target];
        return Ok((hash(MovedContent(current, d.value.note)), op.(beforeHash := hash(current))));
      }
      var content := ContentOf(op.payload);
      if content.None? { return Err(BadPayload); }
      if content.value == "" { return Err(EmptyContent); }
      if Creates(op) { return Ok((hash(content.value), op)); }
      var current := notes[op.target];
      var next := if op.kind == AppendNote then current + content.value else content.value;
      return Ok((hash(next), op.(beforeHash := hash(current))));
    }
  }

  /** The digest is that of the text the operation would leave. */
  ghost predicate Previewed(v: Vault, op: Operation, digest: string, hash: Hasher) {
    exists w, text :: Leaves(v, op, w) && LandsIn(op, w, text) && digest == hash(text)
  }

  lemma PreviewedAs(v: Vault, op: Operation, hash: Hasher)
    requires PrepareFailure(v, op) == None
    ensures Previewed(v, op, hash(LandingText(v, op)), hash)
  {
    hide *;
    PreviewMeans(v, op, hash);
    assert Leaves(v, op, Effect(v, op)) && LandsIn(op, Effect(v, op), LandingText(v, op));
    PreviewedBy(v, op, Effect(v, op), LandingText(v, op), hash);
  }

  lemma PreviewedBy(v: Vault, op: Operation, w: Vault, text: string, hash: Hasher)
    requires Leaves(v, op, w) && LandsIn(op, w, text)
    ensures Previewed(v, op, hash(text), hash)
  {
    hide Leaves, LandsIn;
  }

  /** A vault seen while a plan ran: some operation was under way, the earlier ones
      done and every one so far in order. */
  ghost predicate Passed(v: Vault, ops: seq<Operation>, s: Vault, hash: Hasher) {
    exists i :: 0 <= i < |ops| && s in PlanStages(v, ops, i)
      && forall k :: 0 <= k <= i ==> OpFailure(Before(v, ops, k), ops[k], hash) == None
  }

  lemma PassedNow(v: Vault, ops: seq<Operation>, i: nat, w: Vault, s0: set<Vault>, s1: set<Vault>, hash: Hasher)
    requires i < |ops| && Ran(Before(v, ops, i), ops[i], w, s0, s1, hash)
    requires forall k :: 0 <= k < i ==> OpFailure(Before(v, ops, k), ops[k], hash) == None
    ensures forall s :: s in s1 ==> s in s0 || Passed(v, ops, s, hash)
    ensures w == Before(v, ops, i)
      || (w in PlanStages(v, ops, i) && OpFailure(Before(v, ops, i), ops[i], hash) == None)
  {
    hide OpFailure, Stages;
    forall s | s in s1 && s !in s0 ensures Passed(v, ops, s, hash) {
      assert s in PlanStages(v, ops, i);
      assert forall k :: 0 <= k <= i ==> OpFailure(Before(v, ops, k), ops[k], hash) == None;
    }
  }

  // ---- What a run amounts to ----

  /** Each report names its operation and carries the digest of the text it left. */
  ghost predicate Accounted(ops: seq<Operation>, applied: seq<AppliedOp>, vaults: seq<Vault>, hash: Hasher)
    requires |applied| <= |ops| && |vaults| == |applied| + 1
  {
    forall i :: 0 <= i < |applied| ==>
      exists text :: LandsIn(ops[i], vaults[i + 1], text)
        && applied[i] == AppliedOp(ops[i].id, ops[i].target, hash(text))
  }

  /** The operations reported each left, in their turn, what their payloads say; the vault
      is as the last of them left it, or the next operation got partway. */
  ghost predicate RanAs(v: Vault, ops: seq<Operation>, applied: seq<AppliedOp>, w: Vault, hash: Hasher) {
    && |applied| <= |ops|
    && exists vaults :: Chained(v, ops[..|applied|], vaults) && Accounted(ops, applied, vaults, hash)
         && (w == vaults[|applied|] || (|applied| < |ops| && Midway(vaults[|applied|], ops[|applied|], w)))
  }

  lemma RunMeans(v: Vault, ops: seq<Operation>, applied: seq<AppliedOp>, w: Vault, hash: Hasher)
    requires |applied| <= |ops| && applied == Reports(v, ops, |applied|, hash)
    requires forall i :: 0 <= i < |applied| ==> OpFailure(Before(v, ops, i), ops[i], hash) == None
    requires w == Before(v, ops, |applied|) || (|applied| < |ops| && w in PlanStages(v, ops, |applied|))
    requires w == Before(v, ops, |applied|) || OpFailure(Before(v, ops, |applied|), ops[|applied|], hash) == None
    ensures RanAs(v, ops, applied, w, hash)
    ensures |applied| == |ops| && Apart(ops) ==> AllLeft(v, ops, w)
  {
    hide OpFailure, Effect, LandingText, Stages, Before, Reports, Midway, LandsIn, AllLeft, Leaves, Apart;
    var n, vaults := |applied|, VaultsOf(v, ops, |applied|);
    ChainOf(v, ops, hash, n);
    forall i | 0 <= i < n
      ensures LandsIn(ops[i], vaults[i + 1], LandingText(Before(v, ops, i), ops[i]))
      ensures applied[i] == AppliedOp(ops[i].id, ops[i].target, hash(LandingText(Before(v, ops, i), ops[i])))
    {
      ReportsAt(v, ops, n, hash, i);
      BeforeStep(v, ops, i);
      EffectMeans(Before(v, ops, i), ops[i], hash);
    }
    if w != Before(v, ops, n) { StageMeans(Before(v, ops, n), ops[n], hash, w); }
    if n == |ops| {
      assert ops[..n] == ops;
      if Apart(ops) { ChainApart(v, ops, vaults); }
    }
  }

  /** A plan of one operation that moves nothing. */
  lemma OneOp(v: Vault, op: Operation, hash: Hasher)
    requires op.kind != MoveNote
    ensures Before(v, [op], 0) == v && Before(v, [op], 1) == v[op.target := LandingText(v, op)]
    ensures PlanStages(v, [op], 0) == {v, v[op.target := LandingText(v, op)]}
    ensures RunsClean(v, [op], hash) && GuardsHold(v, [op], hash) <==> OpFailure(v, op, hash) == None
  {
    hide LandingText, GuardedRead;
    var ops := [op];
    assert ops[..0] == [] && ops[..1] == ops && ops[0] == op;
    assert ops[..1][..0] == [];
    assert Landing(op) == op.target;
  }

  /** No content is lost: without rewrites, every vault seen while a plan runs still
      holds each old note's text at the start of a note of its own. */
  lemma NoContentLost(v: Vault, ops: seq<Operation>, s: Vault, hash: Hasher)
    requires Passed(v, ops, s, hash) && forall op :: op in ops ==> op.kind != RewriteNote
    ensures NothingLost(v, s)
  {
    hide OpFailure, Stages, Before, NothingLost;
    var i :| 0 <= i < |ops| && s in PlanStages(v, ops, i)
      && forall k :: 0 <= k <= i ==> OpFailure(Before(v, ops, k), ops[k], hash) == None;
    PlanKeeps(v, ops, hash, i);
    StageKeeps(Before(v, ops, i), ops[i], hash, s);
    NothingLostTwice(v, Before(v, ops, i), s);
  }

  /** Nor in the vault the run ends in, however it ends. */
  lemma EndKeeps(v: Vault, ops: seq<Operation>, n: nat, w: Vault, hash: Hasher)
    requires n <= |ops| && forall op :: op in ops ==> op.kind != RewriteNote
    requires forall i :: 0 <= i < n ==> OpFailure(Before(v, ops, i), ops[i], hash) == None
    requires w == Before(v, ops, n)
      || (n < |ops| && w in PlanStages(v, ops, n) && OpFailure(Before(v, ops, n), ops[n], hash) == None)
    ensures NothingLost(v, w)
  {
    hide OpFailure, Stages, Before, NothingLost;
    PlanKeeps(v, ops, hash, n);
    if w != Before(v, ops, n) {
      StageKeeps(Before(v, ops, n), ops[n], hash, w);
      NothingLostTwice(v, Before(v, ops, n), w);
    }
  }

  /** Every digest reported for a prepared plan is the previewed one, whatever became
      of the vault between preview and run. */
  lemma PreviewedDigests(v: Vault, ops: seq<Operation>, hash: Hasher, later: Vault, i: nat)
    requires i < |ops| && PrepareFailure(v, ops[i]) == None
    requires var w := Before(later, PreparedAll(v, ops, hash), i);
      ops[i].target in v && ops[i].target in w ==> Injective(hash, v[ops[i].target], w[ops[i].target])
    requires var ready := PreparedAll(v, ops, hash); OpFailure(Before(later, ready, i), ready[i], hash) == None
    ensures ReportOf(later, PreparedAll(v, ops, hash), i, hash) ==
      AppliedOp(ops[i].id, ops[i].target, hash(LandingText(v, ops[i])))
  {
    var w := Before(later, PreparedAll(v, ops, hash), i);
    hide Before, LandingText, PrepareFailure, OpFailure, PreparedAll;
    BothThere(v, ops[i], hash, w);
    PreviewIsTruth(v, ops[i], hash, w);
  }

  lemma BothThere(v: Vault, op: Operation, hash: Hasher, w: Vault)
    requires PrepareFailure(v, op) == None && OpFailure(w, Prepared(v, op, hash), hash) == None
    ensures Mutates(op) ==> op.target in v && op.target in w
  {
    hide ValidVaultPath;
  }

  lemma {:induction false} ReportsAt(v: Vault, ops: seq<Operation>, n: nat, hash: Hasher, i: nat)
    requires i < n <= |ops|
    ensures |Reports(v, ops, n, hash)| == n && Reports(v, ops, n, hash)[i] == ReportOf(v, ops, i, hash)
    decreases n
  {
    hide ReportOf;
    if n > 1 { ReportsAt(v, ops, n - 1, hash, if i < n - 1 then i else 0); }
  }

  lemma {:induction false} RowsAt(plan: Plan, v: Vault, n: nat, hash: Hasher, i: nat)
    requires i < n <= |plan.ops|
    ensures |Rows(plan, v, n, hash)| == n && Rows(plan, v, n, hash)[i] == RowOf(plan, v, i, hash)
    decreases n
  {
    hide RowOf;
    if n > 1 { RowsAt(plan, v, n - 1, hash, if i < n - 1 then i else 0); }
  }

  /** The rows a run leaves that got through `n` operations after preflight. */
  function AllRows(plan: Plan, v: Vault, n: nat, hash: Hasher): seq<LogRow>
    requires n <= |plan.ops|
  {
    Rows(plan, v, n, hash) + FailedRows(plan, plan.ops[n..])
  }

  lemma {:induction false} RowsCount(plan: Plan, v: Vault, n: nat, hash: Hasher)
    requires n <= |plan.ops|
    ensures |Rows(plan, v, n, hash)| == n
  {
    if n > 0 { RowsCount(plan, v, n - 1, hash); }
  }

  lemma RowAt(plan: Plan, v: Vault, n: nat, hash: Hasher, i: nat)
    requires n <= |plan.ops| && i < |plan.ops|
    ensures |AllRows(plan, v, n, hash)| == |plan.ops|
    ensures AllRows(plan, v, n, hash)[i] == if i < n then RowOf(plan, v, i, hash) else FailedRow(plan, plan.ops[i])
  {
    hide Rows, RowOf, FailedRow;
    RowsCount(plan, v, n, hash);
    if i < n {
      RowsAt(plan, v, n, hash, i);
    } else {
      assert plan.ops[n..][i - n] == plan.ops[i];
    }
  }

  lemma AllRowsAre(log0: seq<LogRow>, plan: Plan, v: Vault, n: nat, hash: Hasher)
    requires n <= |plan.ops|
    ensures log0 + Rows(plan, v, n, hash) + FailedRows(plan, plan.ops[n..]) == log0 + AllRows(plan, v, n, hash)
    ensures FailedRows(plan, []) == []
  {
    hide Rows;
  }

  lemma NoRows(log0: seq<LogRow>, plan: Plan, v: Vault, hash: Hasher)
    ensures log0 + Rows(plan, v, 0, hash) == log0 && Reports(v, plan.ops, 0, hash) == []
  {}

  lemma OneMoreRow(log0: seq<LogRow>, plan: Plan, v: Vault, i: nat, hash: Hasher)
    requires i < |plan.ops|
    ensures log0 + Rows(plan, v, i + 1, hash) == log0 + Rows(plan, v, i, hash) + [RowOf(plan, v, i, hash)]
    ensures Reports(v, plan.ops, i + 1, hash) == Reports(v, plan.ops, i, hash) + [ReportOf(v, plan.ops, i, hash)]
  {
    hide RowOf, ReportOf;
  }

  /** One row an operation, in plan order: the first `n` applied, with the digests
      reported, the others failed. */
  lemma LogAccounts(plan: Plan, v: Vault, n: nat, hash: Hasher, i: nat)
    requires n <= |plan.ops| && i < |plan.ops|
    ensures |AllRows(plan, v, n, hash)| == |plan.ops|
    ensures var row := AllRows(plan, v, n, hash)[i];
      && row.plan == plan.id && row.kind == plan.ops[i].kind && row.target == plan.ops[i].target
      && (row.applied <==> i < n)
    ensures |Reports(v, plan.ops, n, hash)| == n
    ensures i < n ==>
      Reports(v, plan.ops, n, hash)[i] ==
        AppliedOp(plan.ops[i].id, plan.ops[i].target, AllRows(plan, v, n, hash)[i].afterHash)
  {
    hide Rows, AllRows, Reports, Before, LandingText;
    RowAt(plan, v, n, hash, i);
    ReportsCount(v, plan.ops, n, hash);
    if i < n { ReportsAt(v, plan.ops, n, hash, i); }
  }

  lemma {:induction false} ReportsCount(v: Vault, ops: seq<Operation>, n: nat, hash: Hasher)
    requires n <= |ops|
    ensures |Reports(v, ops, n, hash)| == n
  {
    if n > 0 { ReportsCount(v, ops, n - 1, hash); }
  }

  // ---- A row that is lost ----

  const LOST: Operation := Operation("op", CreateNote, "Note.md", "", Content("text"), "", Low)

  const LOST_PLAN: Plan := Plan("plan", "job", Low, false, "", [], ["Note.md"], [LOST], Approved)

  lemma NamedValid()
    ensures ValidVaultPath("Note.md")
  {
    assert "Note.md"[..7] == "Note.md";
    IndexOfUnique("Note.md", '/', 7);
  }

  lemma LostRuns(hash: Hasher)
    ensures OpFailure(map[], LOST, hash) == None && RunsClean(map[], [LOST], hash) && GuardsHold(map[], [LOST], hash)
    ensures Before(map[], [LOST], 1) == map["Note.md" := "text"]
  {
    NamedValid();
    hide ValidVaultPath, RunsClean, GuardsHold, Before, PlanStages;
    OneOp(map[], LOST, hash);
  }

  lemma LostGranted(hash: Hasher, now: int)
    ensures PathLocks.Grants(map[], Unique(LOST_PLAN.targets), now)
    ensures AllRows(LOST_PLAN, map[], 0, hash) == [FailedRow(LOST_PLAN, LOST)]
  {
    hide FailedRow;
    assert [LOST][0..] == [LOST] && [LOST][1..] == [];
  }

  /** The first row cannot be written, every later one can: the note is there, and the log
      says that its operation failed. */
  method RunLost(fs: DirectFS, now: int)
    requires fs.notes == map[] && fs.log == [] && fs.logStep == 0 && fs.locks.rows == map[]
    requires fs.Faultless() && fs.logFails(0) && fs.WorksFrom(1)
    modifies fs, fs.locks
    ensures fs.notes == map["Note.md" := "text"] && fs.log == [FailedRow(LOST_PLAN, LOST)]
  {
    hide *;
    LostRuns(fs.hash);
    LostGranted(fs.hash, now);
    assert LOST_PLAN.ops == [LOST] by { PlanOfLost(); }
    var applied, err;
    ghost var started;
    applied, err, started := fs.Apply(LOST_PLAN, now);
    assert started && |applied| == 0;
    assert [] + AllRows(LOST_PLAN, map[], 0, fs.hash) == AllRows(LOST_PLAN, map[], 0, fs.hash);
  }

  lemma PlanOfLost()
    ensures LOST_PLAN.ops == [LOST]
  {}

  method LostRow(hash: Hasher, now: int) returns (fs: DirectFS)
    ensures fresh(fs) && fs.notes == map["Note.md" := "text"] && fs.log == [FailedRow(LOST_PLAN, LOST)]
  {
    hide FailedRow;
    var locks := new PathLocks.LockTable(0);
    fs := new DirectFS(hash, n => false, n => n == 0, locks, map[]);
    RunLost(fs, now);
  }
}
