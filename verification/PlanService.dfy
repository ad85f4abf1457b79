/** Plans through approval: internal/core/plans.go over the vault_plans table. Each
    service call is atomic; every write to the table may fail. */
module PlanService {
  import opened Text
  import opened Paths
  import opened Plans
  import opened VaultOps
  import opened Effects
  import opened Executor
  import PathLocks
  import Policy

  // ---- What happens to plans ----

  datatype Event = Saved(id: string) | Handed(id: string) | Refused(id: string)

  /** No plan is handed to the executor twice, nor after a rejection, nor rejected
      after it was handed over. */
  predicate Lawful(trace: seq<Event>) {
    forall i, j :: 0 <= i < j < |trace| && !trace[i].Saved? && trace[i].id == trace[j].id ==> trace[j].Saved?
  }

  /** Plans that are decided: handed over or rejected. */
  predicate Decided(trace: seq<Event>, id: string) {
    exists i :: 0 <= i < |trace| && !trace[i].Saved? && trace[i].id == id
  }

  /** What a lawful course of events means for one plan. */
  lemma HandedAtMostOnce(trace: seq<Event>, id: string, i: nat, j: nat)
    requires Lawful(trace) && i < |trace| && j < |trace| && trace[i] == Handed(id)
    ensures trace[j] == Handed(id) ==> i == j
    ensures trace[j] != Refused(id)
  {
    if i < j { assert trace[i].id == id; }
  }

  lemma DecideOnce(trace: seq<Event>, e: Event)
    requires Lawful(trace) && !e.Saved? && !Decided(trace, e.id)
    ensures Lawful(trace + [e])
    ensures forall id :: Decided(trace + [e], id) <==> Decided(trace, id) || id == e.id
  {
    forall id ensures Decided(trace + [e], id) <==> Decided(trace, id) || id == e.id {
      assert (trace + [e])[|trace|] == e;
      if Decided(trace, id) {
        var i :| 0 <= i < |trace| && !trace[i].Saved? && trace[i].id == id;
        assert (trace + [e])[i] == trace[i];
      }
    }
  }

  lemma SaveMore(trace: seq<Event>, e: Event)
    requires Lawful(trace) && e.Saved?
    ensures Lawful(trace + [e])
    ensures forall id :: Decided(trace + [e], id) <==> Decided(trace, id)
  {
    forall id ensures Decided(trace + [e], id) <==> Decided(trace, id) {
      if Decided(trace, id) {
        var i :| 0 <= i < |trace| && !trace[i].Saved? && trace[i].id == id;
        assert (trace + [e])[i] == trace[i];
      }
    }
  }

  /** The table agrees with what happened: a decided plan is never awaiting again. */
  ghost predicate Ledger(rows: map<string, Plan>, trace: seq<Event>) {
    && Lawful(trace)
    && (forall id :: id in rows ==> rows[id].id == id)
    && (forall id :: Decided(trace, id) ==> id in rows && rows[id].status != AwaitingApproval)
  }

  lemma StatusStep(rows: map<string, Plan>, trace: seq<Event>, id: string, status: PlanStatus)
    requires Ledger(rows, trace) && id in rows && status != AwaitingApproval
    ensures Ledger(rows[id := rows[id].(status := status)], trace)
  {
    hide Lawful, Decided;
  }

  lemma Deciding(rows: map<string, Plan>, trace: seq<Event>, e: Event)
    requires Ledger(rows, trace) && !e.Saved? && e.id in rows && rows[e.id].status != AwaitingApproval
    requires !Decided(trace, e.id)
    ensures Ledger(rows, trace + [e])
  {
    DecideOnce(trace, e);
    hide Lawful, Decided;
  }

  lemma Saving(rows: map<string, Plan>, trace: seq<Event>, plan: Plan)
    requires Ledger(rows, trace) && plan.id !in rows
    ensures Ledger(rows[plan.id := plan], trace + [Saved(plan.id)])
    ensures !Decided(trace + [Saved(plan.id)], plan.id)
  {
    SaveMore(trace, Saved(plan.id));
    hide Lawful, Decided;
  }

  lemma Replacing(rows: map<string, Plan>, trace: seq<Event>, plan: Plan)
    requires Ledger(rows, trace) && plan.id in rows && !Decided(trace, plan.id)
    ensures Ledger(rows[plan.id := plan], trace)
  {
    hide Lawful, Decided;
  }

  predicate DirNamed(rules: Policy.Rules) {
    rules.proposalsDir != "" && rules.proposalsDir[|rules.proposalsDir| - 1] != '/'
  }

  // ---- The service ----

  class Service {
    const rules: Policy.Rules
    const fs: DirectFS
    const storeFails: nat -> bool
    /** The text of a proposal note, when the plan can be rendered as one. */
    const render: Plan -> Option<string>

    var rows: map<string, Plan>
    var step: nat
    ghost var trace: seq<Event>

    constructor (rules: Policy.Rules, fs: DirectFS, storeFails: nat -> bool, render: Plan -> Option<string>)
      requires DirNamed(rules)
      ensures Valid() && rows == map[] && trace == [] && step == 0
    {
      this.rules, this.fs, this.storeFails, this.render := rules, fs, storeFails, render;
      rows, step, trace := map[], 0, [];
    }

    ghost predicate Valid()
      reads this
    {
      DirNamed(rules) && Ledger(rows, trace)
    }

    ghost predicate StoreWorks() { forall n :: !storeFails(n) }

    /** No write to the table, no call of the vault and no row of the log fails. */
    ghost predicate Working() { StoreWorks() && fs.Faultless() && fs.LogWorks() }

    /** A write to the table, which may fail. */
    method Store() returns (ok: bool)
      modifies `step
      ensures (StoreWorks() ==> ok) && step == old(step) + 1 && ok == !storeFails(old(step))
    {
      ok := !storeFails(step);
      step := step + 1;
    }

    /** One write to the table; a failed one changes nothing. */
    method SetStatus(id: string, status: PlanStatus) returns (ok: bool)
      requires id in rows && Valid() && status != AwaitingApproval
      modifies `rows, `step
      ensures Valid() && Steps(old(rows), rows, id)
      ensures rows[id].status == (if ok then status else old(rows)[id].status) && (StoreWorks() ==> ok)
    {
      StatusStep(rows, trace, id, status);
      hide Ledger;
      ok := Store();
      if ok { rows := rows[id := rows[id].(status := status)]; }
    }

    /** A plan by its id, or else by its job. */
    method ResolvePlan(identifier: string) returns (id: Option<string>)
      ensures id.Some? ==> Resolves(identifier, rows, id.value)
      ensures id.None? ==> forall i :: !Resolves(identifier, rows, i)
    {
      var key := Trim(identifier);
      if key == "" { return None; }
      if key in rows { return Some(key); }
      var ofJob := set i | i in rows && rows[i].jobId == key;
      if ofJob == {} {
        assert forall i :: i in rows && rows[i].jobId == key ==> i in ofJob;
        return None;
      }
      var i :| i in ofJob;
      return Some(i);
    }

    // ---- Proposing ----

    /** `prepareApprovalPlan`: check, save under a new id, preview, await approval. */
    method PrepareApprovalPlan(plan: Plan) returns (ok: bool)
      requires Valid()
      modifies this, fs`step
      ensures Valid() && (trace == old(trace) || trace == old(trace) + [Saved(plan.id)])
      ensures forall id :: id in old(rows) ==> id in rows && rows[id] == old(rows)[id]
      ensures ok ==> plan.id !in old(rows) && Policy.MediumAllowed(plan, rules)
      ensures ok ==> plan.id in rows && rows[plan.id].status == AwaitingApproval
      ensures ok ==> plan.id in rows && rows[plan.id].ops == PreparedAll(fs.notes, plan.ops, fs.hash)
      ensures Working() ==>
        (ok <==> (Policy.MediumAllowed(plan, rules) && plan.id !in old(rows)
          && forall i :: 0 <= i < |plan.ops| ==> PrepareFailure(fs.notes, plan.ops[i]) == None))
    {
      hide Policy.MediumAllowed, Ledger, Decided, PrepareFailure, LandingText, Prepared;
      if !Policy.MediumAllowed(plan, rules) { return false; }
      var saved := Store();
      if !saved || plan.id in rows { return false; }
      Saving(rows, trace, plan);
      rows := rows[plan.id := plan];
      trace := trace + [Saved(plan.id)];
      var prepared := fs.Prepare(plan);
      if prepared.Err? {
        var _ := SetStatus(plan.id, Failed);
        return false;
      }
      ok := Store();
      if ok {
        Replacing(rows, trace, prepared.value.1.(status := AwaitingApproval));
        rows := rows[plan.id := prepared.value.1.(status := AwaitingApproval)];
      }
    }

    /** `prepareHighRiskApprovalPlan`. */
    method PrepareHighRiskApprovalPlan(plan: Plan) returns (ok: bool)
      requires Valid()
      modifies this
      ensures Valid() && (trace == old(trace) || trace == old(trace) + [Saved(plan.id)])
      ensures forall id :: id in old(rows) ==> id in rows && rows[id] == old(rows)[id]
      ensures ok ==> plan.id !in old(rows) && Policy.HighAllowed(plan, rules)
      ensures ok ==> rows == old(rows)[plan.id := plan.(status := AwaitingApproval)]
      ensures StoreWorks() ==> (ok <==> Policy.HighAllowed(plan, rules) && plan.id !in old(rows))
    {
      hide Policy.HighAllowed, Ledger, Decided;
      if !Policy.HighAllowed(plan, rules) { return false; }
      var saved := Store();
      if !saved || plan.id in rows { return false; }
      Saving(rows, trace, plan.(status := AwaitingApproval));
      rows := rows[plan.id := plan.(status := AwaitingApproval)];
      trace := trace + [Saved(plan.id)];
      return true;
    }

    // ---- Deciding ----

    method Reject(identifier: string) returns (ok: bool, ghost found: Option<string>)
      requires Valid()
      modifies this
      ensures Valid() && FoundBy(identifier, old(rows), found)
      ensures ok ==>
        found.Some? && Rejects(old(rows), rows, found.value) && trace == old(trace) + [Refused(found.value)]
      ensures !ok ==> rows == old(rows) && trace == old(trace)
      ensures StoreWorks() ==> (ok <==> found.Some? && old(rows)[found.value].status == AwaitingApproval)
    {
      hide Decided, Lawful;
      var id := ResolvePlan(identifier);
      found := id;
      if id.None? { return false, found; }
      if rows[id.value].status != AwaitingApproval { return false, found; }
      ok := SetStatus(id.value, Rejected);
      if !ok { SameRows(old(rows), rows, id.value); }
      if ok {
        Deciding(rows, trace, Refused(id.value));
        trace := trace + [Refused(id.value)];
        assert Rejects(old(rows), rows, id.value);
      }
    }

    /** The plan, once approved, would be let through and would run. */
    ghost predicate Passes(plan: Plan, v: Vault, locks: PathLocks.Rows, now: int) {
      var approved := plan.(status := Approved);
      if plan.risk == High then
        Policy.HighAllowed(approved, rules) && CanPropose(plan.id, v, locks, now) && render(approved).Some?
      else
        Policy.ApprovedAllowed(approved, rules) && CanRun(plan.targets, plan.ops, v, locks, now)
    }

    /** Its locks are free, every guard holds and every operation succeeds at its turn. */
    ghost predicate CanRun(targets: seq<string>, ops: seq<Operation>, v: Vault, locks: PathLocks.Rows, now: int) {
      && PathLocks.Grants(locks, Unique(targets), now)
      && GuardsHold(v, ops, fs.hash) && RunsClean(v, ops, fs.hash)
    }

    /** `Approve`. Whatever happens, the vault only changes as the plan's risk allows. */
    method Approve(identifier: string, now: int) returns (ok: bool, ghost found: Option<string>)
      requires Valid()
      modifies this, fs, fs.locks
      ensures Valid() && FoundBy(identifier, old(rows), found)
      ensures rows.Keys == old(rows).Keys
      ensures trace == old(trace) ==> fs.notes == old(fs.notes) && fs.log == old(fs.log) && !ok
      ensures trace != old(trace) ==>
        && found.Some? && Approves(old(rows), rows, found.value) && trace == old(trace) + [Handed(found.value)]
        && WithinRisk(rows[found.value], old(fs.notes), fs.notes)
      ensures forall s :: s in fs.seen ==> s in old(fs.seen) || NothingLost(old(fs.notes), s)
      ensures ok ==> trace != old(trace) && WhollyDone(rows[found.value], old(fs.notes), fs.notes)
      ensures Working() ==>
        (ok <==> (found.Some? && old(rows)[found.value].status == AwaitingApproval
          && Passes(old(rows)[found.value], old(fs.notes), old(fs.locks.rows), now)))
    {
      hide Decided, Lawful, NothingLost, OnlyTargets, RanSome, Policy.AllInPlace, Apart, AllLeft, OneProposal,
        NoteWritten, Policy.HighAllowed, Policy.ApprovedAllowed, CanPropose, CanRun;
      var id := ResolvePlan(identifier);
      found := id;
      if id.None? { return false, found; }
      if rows[id.value].status != AwaitingApproval { return false, found; }
      var approved := SetStatus(id.value, Approved);
      if !approved { return false, found; }
      var plan := rows[id.value];
      if plan.risk == High {
        ok := ApproveHighRisk(plan, now);
      } else {
        ok := ApplyApproved(plan, now);
      }
      assert trace != old(trace) ==> Approves(old(rows), rows, id.value);
    }

    method ApproveHighRisk(plan: Plan, now: int) returns (ok: bool)
      requires Valid() && plan.id in rows && rows[plan.id] == plan && plan.status == Approved && plan.risk == High
      requires !Decided(trace, plan.id)
      modifies this, fs, fs.locks
      ensures Valid()
      ensures rows.Keys == old(rows).Keys && Steps(old(rows), rows, plan.id)
      ensures trace == old(trace) ==> fs.notes == old(fs.notes) && fs.log == old(fs.log) && !ok
      ensures trace == old(trace) || trace == old(trace) + [Handed(plan.id)]
      ensures trace != old(trace) ==> rows[plan.id].status in {Applying, Failed, ProposalWritten}
      ensures trace != old(trace) ==> Policy.HighAllowed(plan, rules)
      ensures Working() ==>
        (ok <==> (Policy.HighAllowed(plan, rules) && CanPropose(plan.id, old(fs.notes), old(fs.locks.rows), now)
          && render(plan).Some?))
      ensures StoreWorks() ==> rows[plan.id].status == if ok then ProposalWritten else Failed
      ensures OneProposal(old(fs.notes), fs.notes)
      ensures forall s :: s in fs.seen ==> s in old(fs.seen) || OneProposal(old(fs.notes), s)
      ensures forall s :: s in fs.seen ==> s in old(fs.seen) || NothingLost(old(fs.notes), s)
      ensures ok ==> rows[plan.id].status == ProposalWritten
      ensures ok ==> ProposedBy(plan, old(fs.notes), fs.notes)
    {
      hide Ledger, Decided, NothingLost, OneProposal, Policy.HighAllowed, NoteWritten, CanPropose;
      Untouched(plan.targets, fs.notes);
      OneProposalNone(fs.notes);
      if !Policy.HighAllowed(plan, rules) {
        var _ := SetStatus(plan.id, Failed);
        return false;
      }
      var applying := SetStatus(plan.id, Applying);
      if !applying { return false; }
      Deciding(rows, trace, Handed(plan.id));
      trace := trace + [Handed(plan.id)];
      var written := WriteProposal(plan, now);
      if !written {
        var _ := SetStatus(plan.id, Failed);
        return false;
      }
      ok := SetStatus(plan.id, ProposalWritten);
    }

    /** An allowed medium-risk plan run by the executor: at no moment is a note's text
        lost, and only its targets change. */
    method HandOver(plan: Plan, now: int) returns (err: Option<Failure>)
      requires Policy.MediumAllowed(plan, rules)
      modifies fs, fs.locks
      ensures NothingLost(old(fs.notes), fs.notes) && OnlyTargets(plan.targets, old(fs.notes), fs.notes)
      ensures forall s :: s in fs.seen ==> s in old(fs.seen) || NothingLost(old(fs.notes), s)
      ensures Policy.AllInPlace(plan.ops, plan.targets, rules) && RanSome(plan.ops, old(fs.notes), fs.notes)
      ensures err.None? && Apart(plan.ops) ==> AllLeft(old(fs.notes), plan.ops, fs.notes)
      ensures fs.Faultless() && fs.LogWorks() ==>
        (err.None? <==> CanRun(plan.targets, plan.ops, old(fs.notes), old(fs.locks.rows), now))
      ensures (fs.Faultless() && PathLocks.Grants(old(fs.locks.rows), Unique(plan.targets), now)
        && !GuardsHold(old(fs.notes), plan.ops, fs.hash)) ==>
        err.Some? && FailsFirst(old(fs.notes), plan.ops, err.value, fs.hash)
    {
      hide NothingLost, OnlyTargets, Before, OpFailure, GuardFailure, PlanStages, Policy.MediumAllowed, Passed, Reports,
        Rows, AllRows, Footprint, GuardsHold, RunsClean, RanAs, Apart, AllLeft, Policy.AllInPlace, Policy.InPlace,
        FailsFirst;
      ghost var v, seen0 := fs.notes, fs.seen;
      MediumRuns(plan, rules);
      var applied;
      ghost var started;
      applied, err, started := fs.Apply(plan, now);
      EndKeeps(v, plan.ops, |applied|, fs.notes, fs.hash);
      EndLocal(plan, v, |applied|, fs.notes);
      forall s | s in fs.seen && s !in seen0 ensures NothingLost(v, s) {
        NoContentLost(v, plan.ops, s, fs.hash);
      }
    }

    method ApplyApproved(plan: Plan, now: int) returns (ok: bool)
      requires Valid() && plan.id in rows && rows[plan.id] == plan && plan.status == Approved && plan.risk != High
      requires !Decided(trace, plan.id)
      modifies this, fs, fs.locks
      ensures Valid()
      ensures rows.Keys == old(rows).Keys && Steps(old(rows), rows, plan.id)
      ensures trace == old(trace) ==> fs.notes == old(fs.notes) && fs.log == old(fs.log) && !ok
      ensures trace == old(trace) || trace == old(trace) + [Handed(plan.id)]
      ensures trace != old(trace) ==> rows[plan.id].status in {Applying, Failed, Conflict, Applied}
      ensures trace != old(trace) ==> Policy.ApprovedAllowed(plan, rules)
      ensures Working() ==>
        (ok <==>
          Policy.ApprovedAllowed(plan, rules) && CanRun(plan.targets, plan.ops, old(fs.notes), old(fs.locks.rows), now))
      ensures StoreWorks() && ok ==> rows[plan.id].status == Applied
      ensures StoreWorks() && !ok ==> rows[plan.id].status in {Failed, Conflict}
      ensures (Working() && Policy.ApprovedAllowed(plan, rules)
        && PathLocks.Grants(old(fs.locks.rows), Unique(plan.targets), now)
        && !GuardsHold(old(fs.notes), plan.ops, fs.hash)) ==>
        (rows[plan.id].status == Conflict <==> Overtaken(old(fs.notes), plan.ops, fs.hash))
      ensures trace != old(trace) ==>
        Policy.AllInPlace(plan.ops, plan.targets, rules) && RanSome(plan.ops, old(fs.notes), fs.notes)
      ensures ok && Apart(plan.ops) ==> AllLeft(old(fs.notes), plan.ops, fs.notes)
      ensures NothingLost(old(fs.notes), fs.notes) && OnlyTargets(plan.targets, old(fs.notes), fs.notes)
      ensures forall s :: s in fs.seen ==> s in old(fs.seen) || NothingLost(old(fs.notes), s)
      ensures ok ==> rows[plan.id].status == Applied
    {
      hide Ledger, Decided, Policy.MediumAllowed, NothingLost, OnlyTargets, RanSome, Policy.AllInPlace, Apart, AllLeft;
      Untouched(plan.targets, fs.notes);
      if !Policy.ApprovedAllowed(plan, rules) {
        var _ := SetStatus(plan.id, Failed);
        return false;
      }
      var applying := SetStatus(plan.id, Applying);
      if !applying { return false; }
      Deciding(rows, trace, Handed(plan.id));
      trace := trace + [Handed(plan.id)];
      var err := HandOver(plan, now);
      OvertakenIff(plan, rules, old(fs.notes), fs.hash);
      if err.Some? {
        var _ := SetStatus(plan.id, if IsConflict(err.value) then Conflict else Failed);
        return false;
      }
      ok := SetStatus(plan.id, Applied);
    }

    /** A high-risk plan handed to the executor: its proposal note is all it writes. */
    method WriteProposal(plan: Plan, now: int) returns (ok: bool)
      requires DirNamed(rules)
      modifies fs, fs.locks
      ensures ok ==> NoteWritten(plan.id, render(plan), old(fs.notes), fs.notes)
      ensures fs.Faultless() && fs.LogWorks() ==>
        (ok <==> (plan.risk == High && CanPropose(plan.id, old(fs.notes), old(fs.locks.rows), now)
          && render(plan).Some?))
      ensures OneProposal(old(fs.notes), fs.notes) && NothingLost(old(fs.notes), fs.notes)
      ensures forall s :: s in fs.seen ==>
        s in old(fs.seen) || (OneProposal(old(fs.notes), s) && NothingLost(old(fs.notes), s))
    {
      hide NothingLost, OneProposal, Policy.ProposalNotePath, Inside, ValidVaultPath, PathLocks.Grants,
        PathLocks.AfterAcquire, PathLocks.AfterRelease;
      var path := Policy.ProposalNotePath(plan.id, rules.proposalsDir);
      Policy.ProposalInDir(plan.id, rules.proposalsDir);
      ghost var v, seen0 := fs.notes, fs.seen;
      var content := render(plan);
      var r := fs.ApplyAsProposal(plan, path, content, now);
      ok := r.Ok?;
      assert fs.seen <= seen0 + {fs.notes};
      ProposalKeeps(v, fs.notes, path);
    }

    /** The place for the proposal note is a path, free and not locked. */
    predicate CanPropose(id: string, v: Vault, locks: PathLocks.Rows, now: int) {
      var path := Policy.ProposalNotePath(id, rules.proposalsDir);
      ValidVaultPath(path) && path !in v && PathLocks.Grants(locks, [path], now)
    }

    /** Whatever the plan's status was when it was rendered. */
    ghost predicate ProposedBy(plan: Plan, v: Vault, w: Vault) {
      exists status :: NoteWritten(plan.id, render(plan.(status := status)), v, w)
    }

    /** The proposal note is there, where there was none, and nothing else changed. */
    predicate NoteWritten(id: string, text: Option<string>, v: Vault, w: Vault) {
      var path := Policy.ProposalNotePath(id, rules.proposalsDir);
      path !in v && text.Some? && w == v[path := text.value]
    }

    lemma OneProposalNone(v: Vault)
      ensures OneProposal(v, v)
    {}

    lemma ProposalKeeps(v: Vault, w: Vault, path: string)
      requires w == v || (path !in v && path in w && w == v[path := w[path]])
      requires Inside(path, rules.proposalsDir)
      ensures NothingLost(v, w) && OneProposal(v, w)
    {
      hide Inside;
      if w == v { NothingLostStays(v); } else { PutKeeps(v, path, w[path]); }
    }

    /** At most one path is new, in the proposals directory; nothing else changes. */
    ghost predicate OneProposal(v: Vault, w: Vault) {
      w == v || exists p :: p !in v && p in w && w == v[p := w[p]] && Inside(p, rules.proposalsDir)
    }

    /** What a plan that was carried out left: its proposal note, or, if its operations share
        no path, what each of them leaves. */
    ghost predicate WhollyDone(plan: Plan, v: Vault, w: Vault) {
      if plan.risk == High then plan.status == ProposalWritten && ProposedBy(plan, v, w)
      else plan.status == Applied && (Apart(plan.ops) ==> AllLeft(v, plan.ops, w))
    }

    /** Some first operations of the plan left what their payloads say, and the vault is
        as the last of them left it, or the next one got partway. */
    ghost predicate RanSome(ops: seq<Operation>, v: Vault, w: Vault) {
      exists applied :: RanAs(v, ops, applied, w, fs.hash)
    }

    /** What handing a plan over may do to the vault. */
    ghost predicate WithinRisk(plan: Plan, v: Vault, w: Vault) {
      if plan.risk == High then OneProposal(v, w)
      else
        && NothingLost(v, w) && OnlyTargets(plan.targets, v, w)
        && Policy.AllInPlace(plan.ops, plan.targets, rules) && RanSome(plan.ops, v, w)
    }
  }

  /** An identifier names the plan of that id, or else a plan of that job. */
  predicate Resolves(identifier: string, rows: map<string, Plan>, id: string) {
    var key := Trim(identifier);
    key != "" && id in rows && (id == key || (key !in rows && rows[id].jobId == key))
  }

  /** The plan found is one the identifier names, if there is one. */
  ghost predicate FoundBy(identifier: string, rows: map<string, Plan>, found: Option<string>) {
    if found.Some? then Resolves(identifier, rows, found.value) else forall id :: !Resolves(identifier, rows, id)
  }

  lemma SameRows(a: map<string, Plan>, b: map<string, Plan>, id: string)
    requires Steps(a, b, id) && b[id].status == a[id].status
    ensures a == b
  {}

  /** One plan's status changed and nothing else. */
  predicate Steps(a: map<string, Plan>, b: map<string, Plan>, id: string) {
    && id in a && id in b && b == a[id := b[id]]
    && b[id] == a[id].(status := b[id].status)
  }

  predicate Rejects(a: map<string, Plan>, b: map<string, Plan>, id: string) {
    Steps(a, b, id) && a[id].status == AwaitingApproval && b[id].status == Rejected
  }

  predicate Approves(a: map<string, Plan>, b: map<string, Plan>, id: string) {
    Steps(a, b, id) && a[id].status == AwaitingApproval
    && b[id].status in {Applying, Applied, ProposalWritten, Failed, Conflict}
  }

  /** Notes that are no target of the plan stay as they are. */
  ghost predicate OnlyTargets(targets: seq<string>, v: Vault, w: Vault) {
    forall p :: p !in targets ==> (p in v <==> p in w) && (p in v ==> v[p] == w[p])
  }

  lemma Untouched(targets: seq<string>, v: Vault)
    ensures OnlyTargets(targets, v, v) && NothingLost(v, v)
  {
    NothingLostStays(v);
  }

  lemma MediumRuns(plan: Plan, rules: Policy.Rules)
    requires Policy.MediumAllowed(plan, rules)
    ensures Policy.AllInPlace(plan.ops, plan.targets, rules)
    ensures forall op :: op in plan.ops ==>
      op.kind != RewriteNote && forall p :: p in Footprint(op) ==> p in plan.targets
  {
    hide Policy.MediumAllowed, Footprint, Policy.LinksTo, Inside;
    forall op | op in plan.ops
      ensures Policy.InPlace(op, plan.targets, rules)
      ensures op.kind != RewriteNote && forall p :: p in Footprint(op) ==> p in plan.targets
    {
      Policy.MediumFootprint(plan, rules, op);
    }
  }

  /** The vault moved on since the plan was made: a note that was to be new is there, or
      one that was to be edited or moved has another text. */
  predicate MovedOn(v: Vault, op: Operation, hash: Hasher) {
    || (op.kind == CreateNote && op.target in v)
    || (op.kind in {AppendNote, MoveNote} && op.target in v && hash(v[op.target]) != op.beforeHash)
    || (op.kind == MoveNote && op.target in v && op.payload.Move? && op.payload.destination in v)
  }

  /** That is what the first operation whose guard fails is stopped by. */
  ghost predicate Overtaken(v: Vault, ops: seq<Operation>, hash: Hasher) {
    exists i :: 0 <= i < |ops| && MovedOn(v, ops[i], hash) && GuardsHold(v, ops[..i], hash)
  }

  lemma OvertakenIff(plan: Plan, rules: Policy.Rules, v: Vault, hash: Hasher)
    requires Policy.MediumAllowed(plan, rules)
    ensures forall f :: FailsFirst(v, plan.ops, f, hash) ==> (IsConflict(f) <==> Overtaken(v, plan.ops, hash))
  {
    Policy.MediumMeans(plan, rules);
    forall op | op in plan.ops
      ensures MovedOn(v, op, hash) <==>
        GuardFailure(v, op, hash).Some? && IsConflict(GuardFailure(v, op, hash).value)
    {
      ConflictMeans(op, plan.targets, rules, v, hash);
    }
    hide Policy.MediumAllowed, Policy.InPlace, GuardFailure, MovedOn, IsConflict;
    forall f, i: nat, k: nat | FailsAt(v, plan.ops, i, f, hash) && k < |plan.ops| && MovedOn(v, plan.ops[k], hash)
                               && GuardsHold(v, plan.ops[..k], hash)
      ensures i == k
    {
      FirstOnly(v, plan.ops, i, k, f, hash);
    }
  }

  lemma FirstOnly(v: Vault, ops: seq<Operation>, i: nat, k: nat, f: Failure, hash: Hasher)
    requires FailsAt(v, ops, i, f, hash) && k < |ops| && GuardFailure(v, ops[k], hash).Some?
    requires GuardsHold(v, ops[..k], hash)
    ensures i == k
  {
    hide GuardFailure;
  }

  lemma ConflictMeans(op: Operation, targets: seq<string>, rules: Policy.Rules, v: Vault, hash: Hasher)
    requires Policy.InPlace(op, targets, rules) && ValidVaultPath(op.target)
    ensures MovedOn(v, op, hash) <==> GuardFailure(v, op, hash).Some? && IsConflict(GuardFailure(v, op, hash).value)
  {
    hide ValidVaultPath, Inside, AllSpace, Policy.LinksTo;
  }

  lemma EndLocal(plan: Plan, v: Vault, n: nat, w: Vault)
    requires n <= |plan.ops| && (w == Before(v, plan.ops, n) || (n < |plan.ops| && w in PlanStages(v, plan.ops, n)))
    requires forall op :: op in plan.ops ==> forall p :: p in Footprint(op) ==> p in plan.targets
    ensures OnlyTargets(plan.targets, v, w)
  {
    hide Effect, Stages, Before, Footprint;
    forall p | p !in plan.targets ensures (p in v <==> p in w) && (p in v ==> v[p] == w[p]) {
      forall i | 0 <= i < |plan.ops| ensures {p} !! Footprint(plan.ops[i]) {
        assert plan.ops[i] in plan.ops;
      }
      FoldLocal(v, plan.ops, n, {p});
      assert p in {p};
      if w != Before(v, plan.ops, n) {
        StageLocal(Before(v, plan.ops, n), plan.ops[n], w, p);
      }
    }
  }

  lemma StageLocal(v: Vault, op: Operation, s: Vault, p: string)
    requires s in Stages(v, op) && p !in Footprint(op)
    ensures (p in v <==> p in s) && (p in v ==> v[p] == s[p])
  {
    hide LandingText, Landing;
  }

  // ---- Locks ----

  /** Two allowed plans that hold their locks together work on separate paths: the
      later one's request comes after the earlier one released or ran out. */
  lemma LockedPlansApart(run: seq<PathLocks.Event>, i: nat, j: nat, a: Plan, b: Plan, rules: Policy.Rules, ttl: int,
                         x: Operation, y: Operation)
    requires Policy.MediumAllowed(a, rules) && Policy.MediumAllowed(b, rules) && x in a.ops && y in b.ops
    requires i < j < |run| && PathLocks.Ordered(run)
    requires PathLocks.Acquired(run, i, a.id, ttl) && run[i].paths == Unique(a.targets)
    requires PathLocks.Acquired(run, j, b.id, ttl) && run[j].paths == Unique(b.targets)
    requires PathLocks.NoRelease(run, a.id, i + 1, j) && run[j].now < run[i].now + ttl
    ensures Footprint(x) !! Footprint(y)
  {
    Policy.MediumFootprint(a, rules, x);
    Policy.MediumFootprint(b, rules, y);
    hide Policy.MediumAllowed, Footprint, PathLocks.Grants, PathLocks.Table, PathLocks.Ordered, PathLocks.NoRelease;
    forall p | p in Footprint(x) && p in Footprint(y) ensures false {
      assert p in run[i].paths && p in run[j].paths;
      PathLocks.TakeoverNeedsExpiry(run, i, j, p, ttl);
    }
  }
}
