/** What one operation asks of the vault and does to it: the meaning of
    internal/executor/direct_fs.go, apart from faults. */
module VaultOps {
  import opened Text
  import opened Plans

  /** Note texts by vault path. */
  type Vault = map<string, string>

  datatype Failure =
    | BadPath | Exists | Missing | HashConflict | BadPayload | EmptyContent | Unsupported
    | Locked | Cancelled | Fault

  /** The failures the code reports as conflicts. */
  predicate IsConflict(f: Failure) { f == Exists || f == HashConflict }

  // ---- Payloads ----

  /** Decoding `{"content": …}`: other well-formed objects have no such field. */
  function ContentOf(p: Payload): Option<string> {
    match p
    case Content(c) => Some(c)
    case Malformed => None
    case _ => Some("")
  }

  datatype Destination = Destination(path: string, note: string)

  /** Decoding `{"destination_path": …, "processing_note": …}`. */
  function MoveOf(p: Payload): Option<Destination> {
    match p
    case Move(d, note) => Some(Destination(d, note))
    case Rename(_, d) => Some(Destination(d, ""))
    case Malformed => None
    case _ => Some(Destination("", ""))
  }

  // ---- Guards ----

  predicate Creates(op: Operation) { op.kind == CreateNote || op.kind == WriteAgentReport }

  predicate Edits(op: Operation) { op.kind == AppendNote || op.kind == RewriteNote }

  /** The path must hold the text the plan was made for. */
  function GuardedRead(v: Vault, op: Operation, hash: Hasher): Option<Failure> {
    if !ValidVaultPath(op.target) then Some(BadPath)
    else if op.target !in v then Some(Missing)
    else if hash(v[op.target]) != op.beforeHash then Some(HashConflict)
    else None
  }

  function MoveFailure(v: Vault, op: Operation): Option<Failure> {
    var d := MoveOf(op.payload);
    if d.None? then Some(BadPayload)
    else if !ValidVaultPath(d.value.path) then Some(BadPath)
    else if d.value.path in v then Some(Exists)
    else None
  }

  /** What preflight finds wrong. */
  function GuardFailure(v: Vault, op: Operation, hash: Hasher): Option<Failure> {
    if Creates(op) then
      if !ValidVaultPath(op.target) then Some(BadPath)
      else if op.target in v then Some(Exists)
      else None
    else if Edits(op) then GuardedRead(v, op, hash)
    else if op.kind == MoveNote then
      var f := GuardedRead(v, op, hash);
      if f.Some? then f else MoveFailure(v, op)
    else None
  }

  /** What the operation itself finds wrong: the guard again, then the payload. */
  function OpFailure(v: Vault, op: Operation, hash: Hasher): Option<Failure> {
    var f := GuardFailure(v, op, hash);
    if f.Some? then f
    else if Creates(op) then
      var c := ContentOf(op.payload);
      if c.None? then Some(BadPayload) else if c.value == "" then Some(EmptyContent) else None
    else if Edits(op) then
      if ContentOf(op.payload).None? then Some(BadPayload) else None
    else if op.kind == MoveNote then None
    else Some(Unsupported)
  }

  // ---- Effects ----

  /** The processing note goes on a line of its own. */
  function MovedContent(text: string, note: string): string {
    if note == "" then text
    else if text != "" && !HasSuffix(text, "\n") then text + "\n" + note
    else text + note
  }

  /** The path an operation leaves its text at. */
  function Landing(op: Operation): string {
    if op.kind == MoveNote && MoveOf(op.payload).Some? then MoveOf(op.payload).value.path else op.target
  }

  /** The text an operation leaves there. */
  function LandingText(v: Vault, op: Operation): string {
    var before := if op.target in v then v[op.target] else "";
    if op.kind == MoveNote then
      MovedContent(before, if MoveOf(op.payload).Some? then MoveOf(op.payload).value.note else "")
    else
      var c := if ContentOf(op.payload).Some? then ContentOf(op.payload).value else "";
      if op.kind == AppendNote then before + c else c
  }

  function Effect(v: Vault, op: Operation): Vault {
    (if op.kind == MoveNote then v - {op.target} else v)[Landing(op) := LandingText(v, op)]
  }

  /** Every vault that can be seen while one operation runs: a move links, unlinks,
      and then writes the processing note. */
  function Stages(v: Vault, op: Operation): set<Vault> {
    if op.kind == MoveNote && op.target in v then
      var linked := v[Landing(op) := v[op.target]];
      {v, linked, linked - {op.target}, Effect(v, op)}
    else {v, Effect(v, op)}
  }

  function Fold(v: Vault, ops: seq<Operation>): Vault {
    if ops == [] then v else Effect(Fold(v, ops[..|ops| - 1]), ops[|ops| - 1])
  }

  lemma FoldSnoc(v: Vault, ops: seq<Operation>, i: nat)
    requires i < |ops|
    ensures Fold(v, ops[..i + 1]) == Effect(Fold(v, ops[..i]), ops[i])
  {
    assert ops[..i + 1][..i] == ops[..i];
  }

  /** The vault before operation `i` of a plan. */
  function Before(v: Vault, ops: seq<Operation>, i: nat): Vault
    requires i <= |ops|
  {
    Fold(v, ops[..i])
  }

  /** Every guard holds before anything runs: what preflight checks. */
  predicate GuardsHold(v: Vault, ops: seq<Operation>, hash: Hasher) {
    forall i :: 0 <= i < |ops| ==> GuardFailure(v, ops[i], hash) == None
  }

  /** The guards hold before operation `i`, and it is the first to find this wrong. */
  predicate FailsAt(v: Vault, ops: seq<Operation>, i: nat, f: Failure, hash: Hasher) {
    i < |ops| && GuardFailure(v, ops[i], hash) == Some(f) && GuardsHold(v, ops[..i], hash)
  }

  ghost predicate FailsFirst(v: Vault, ops: seq<Operation>, f: Failure, hash: Hasher) {
    exists i: nat :: FailsAt(v, ops, i, f, hash)
  }

  /** Every operation succeeds at its turn. */
  predicate RunsClean(v: Vault, ops: seq<Operation>, hash: Hasher) {
    forall i :: 0 <= i < |ops| ==> OpFailure(Before(v, ops, i), ops[i], hash) == None
  }

  // ---- Nothing is lost ----

  /** `f` sends every old note to a note of its own that starts with its text. */
  predicate Carries(f: map<string, string>, a: Vault, b: Vault) {
    && f.Keys == a.Keys
    && (forall p :: p in a ==> f[p] in b && a[p] <= b[f[p]])
    && (forall p, q :: p in a && q in a && f[p] == f[q] ==> p == q)
  }

  ghost predicate NothingLost(a: Vault, b: Vault) {
    exists f :: Carries(f, a, b)
  }

  lemma NothingLostStays(a: Vault)
    ensures NothingLost(a, a)
  {
    assert Carries(map p | p in a :: p, a, a);
  }

  lemma CarriesTwice(f: map<string, string>, g: map<string, string>, a: Vault, b: Vault, c: Vault)
    requires Carries(f, a, b) && Carries(g, b, c)
    ensures Carries(map p | p in a :: g[f[p]], a, c)
  {
    var h := map p | p in a :: g[f[p]];
    forall p | p in a ensures h[p] in c && a[p] <= c[h[p]] {
      var q := f[p];
      assert q in b && a[p] <= b[q];
      assert g[q] in c && b[q] <= c[g[q]];
    }
    forall p, q | p in a && q in a && h[p] == h[q] ensures p == q {
      assert f[p] == f[q];
    }
  }

  lemma NothingLostTwice(a: Vault, b: Vault, c: Vault)
    requires NothingLost(a, b) && NothingLost(b, c)
    ensures NothingLost(a, c)
  {
    hide Carries;
    var f :| Carries(f, a, b);
    var g :| Carries(g, b, c);
    assert forall p :: p in a ==> p in f && f[p] in g by { hide *; CarriesKeys(f, a, b); CarriesKeys(g, b, c); }
    CarriesTwice(f, g, a, b, c);
  }

  lemma CarriesKeys(f: map<string, string>, a: Vault, b: Vault)
    requires Carries(f, a, b)
    ensures f.Keys == a.Keys && forall p :: p in a ==> f[p] in b
  {}

  lemma PutKeeps(v: Vault, p: string, text: string)
    requires p in v ==> v[p] <= text
    ensures NothingLost(v, v[p := text])
  {
    assert Carries(map q | q in v :: q, v, v[p := text]);
  }

  lemma MoveKeeps(v: Vault, p: string, d: string, text: string)
    requires p in v && d !in v && v[p] <= text
    ensures NothingLost(v, (v - {p})[d := text])
  {
    assert Carries(map q | q in v :: if q == p then d else q, v, (v - {p})[d := text]);
  }

  /** While an operation other than a rewrite runs, no note's text is lost. */
  lemma StageKeeps(v: Vault, op: Operation, hash: Hasher, s: Vault)
    requires OpFailure(v, op, hash) == None && op.kind != RewriteNote && s in Stages(v, op)
    ensures NothingLost(v, s)
  {
    hide ValidVaultPath, NothingLost, HasSuffix;
    NothingLostStays(v);
    if op.kind == MoveNote {
      var d := Landing(op);
      PutKeeps(v, d, v[op.target]);
      MoveKeeps(v, op.target, d, v[op.target]);
      MoveKeeps(v, op.target, d, LandingText(v, op));
      assert v[d := v[op.target]] - {op.target} == (v - {op.target})[d := v[op.target]];
    } else {
      PutKeeps(v, op.target, LandingText(v, op));
    }
  }

  /** Nor over a whole plan, wherever it stops. */
  lemma {:induction false} PlanKeeps(v: Vault, ops: seq<Operation>, hash: Hasher, n: nat)
    requires n <= |ops| && forall i :: 0 <= i < n ==> OpFailure(Before(v, ops, i), ops[i], hash) == None
    requires forall op :: op in ops ==> op.kind != RewriteNote
    ensures NothingLost(v, Before(v, ops, n))
    decreases n
  {
    hide NothingLost, OpFailure, Effect;
    if n == 0 {
      NothingLostStays(v);
    } else {
      PlanKeeps(v, ops, hash, n - 1);
      FoldSnoc(v, ops, n - 1);
      hide Fold;
      var w := Before(v, ops, n - 1);
      StageKeeps(w, ops[n - 1], hash, Effect(w, ops[n - 1]));
      NothingLostTwice(v, w, Effect(w, ops[n - 1]));
    }
  }

  // ---- Previews ----

  predicate Mutates(op: Operation) { Edits(op) || op.kind == MoveNote }

  /** What preparing an operation finds wrong; the hash guard is not asked yet. */
  function PrepareFailure(v: Vault, op: Operation): Option<Failure> {
    if Creates(op) then
      if !ValidVaultPath(op.target) then Some(BadPath)
      else if op.target in v then Some(Exists)
      else if ContentOf(op.payload).None? then Some(BadPayload)
      else if ContentOf(op.payload).value == "" then Some(EmptyContent)
      else None
    else if Edits(op) then
      if !ValidVaultPath(op.target) then Some(BadPath)
      else if op.target !in v then Some(Missing)
      else if ContentOf(op.payload).None? then Some(BadPayload)
      else if ContentOf(op.payload).value == "" then Some(EmptyContent)
      else None
    else if op.kind == MoveNote then
      if !ValidVaultPath(op.target) then Some(BadPath)
      else if op.target !in v then Some(Missing)
      else MoveFailure(v, op)
    else Some(Unsupported)
  }

  /** The operation as prepared: it now names the text it was made for. */
  function Prepared(v: Vault, op: Operation, hash: Hasher): Operation {
    if Mutates(op) && op.target in v then op.(beforeHash := hash(v[op.target])) else op
  }

  function PreparedAll(v: Vault, ops: seq<Operation>, hash: Hasher): (r: seq<Operation>)
    ensures |r| == |ops| && forall i :: 0 <= i < |r| ==> r[i] == Prepared(v, ops[i], hash)
  {
    if ops == [] then [] else [Prepared(v, ops[0], hash)] + PreparedAll(v, ops[1..], hash)
  }

  /** What was previewed is what is written: a prepared operation that runs, whenever
      that is, leaves the very text it was previewed with, unless two texts collide. */
  lemma PreviewIsTruth(v: Vault, op: Operation, hash: Hasher, later: Vault)
    requires PrepareFailure(v, op) == None
    requires OpFailure(later, Prepared(v, op, hash), hash) == None
    requires Mutates(op) ==> Injective(hash, v[op.target], later[op.target])
    ensures LandingText(later, Prepared(v, op, hash)) == LandingText(v, op)
  {
    hide ValidVaultPath, MovedContent;
  }

  // ---- Plans that cannot run as previewed ----

  /** Two appends to one note are both previewed, and both guards hold before the run; the
      second then finds the first one's text and runs if and only if it cannot tell it from
      the text it was made for. */
  lemma SecondAppend(v: Vault, a: Operation, b: Operation, hash: Hasher)
    requires a.kind == AppendNote && b.kind == AppendNote && a.target == b.target
    requires PrepareFailure(v, a) == None && PrepareFailure(v, b) == None
    ensures var ready, before, after := PreparedAll(v, [a, b], hash), v[a.target], LandingText(v, a);
      && GuardsHold(v, ready, hash) && OpFailure(v, ready[0], hash) == None
      && before < after && Before(v, ready, 1) == v[a.target := after]
      && OpFailure(Before(v, ready, 1), ready[1], hash) ==
        (if hash(after) == hash(before) then None else Some(HashConflict))
      && (RunsClean(v, ready, hash) <==> hash(after) == hash(before))
  {
    hide ValidVaultPath, PreparedAll;
    var ready, after := PreparedAll(v, [a, b], hash), LandingText(v, a);
    assert ready[0] == Prepared(v, a, hash) && ready[1] == Prepared(v, b, hash);
    PreparedRuns(v, a, hash);
    PreparedRuns(v, b, hash);
    assert ready[..0] == [];
    FoldSnoc(v, ready, 0);
    assert Before(v, ready, 0) == v && Before(v, ready, 1) == Effect(v, ready[0]) == v[a.target := after];
    hide Before, LandingText;
    assert OpFailure(v[a.target := after], ready[1], hash) ==
      (if hash(after) == hash(v[a.target]) then None else Some(HashConflict));
  }

  /** An append to a note the plan itself creates does not get that far: it cannot be
      previewed, and its guard fails before the run. */
  lemma AppendToCreated(v: Vault, c: Operation, a: Operation, hash: Hasher)
    requires Creates(c) && Edits(a) && a.target == c.target && PrepareFailure(v, c) == None
    ensures PrepareFailure(v, a) == Some(Missing) && GuardFailure(v, a, hash) == Some(Missing)
    ensures !GuardsHold(v, [c, a], hash)
  {
    hide ValidVaultPath;
    assert [c, a][1] == a;
  }

  /** The paths an operation reads or writes. */
  function Footprint(op: Operation): set<string> { {op.target, Landing(op)} }

  predicate Disjoint(ops: seq<Operation>) {
    forall i, j :: 0 <= i < j < |ops| ==> Footprint(ops[i]) !! Footprint(ops[j])
  }

  predicate Agree(a: Vault, b: Vault, paths: set<string>) {
    forall p :: p in paths ==> (p in a <==> p in b) && (p in a ==> a[p] == b[p])
  }

  lemma FootprintSame(v: Vault, op: Operation, hash: Hasher)
    ensures Footprint(Prepared(v, op, hash)) == Footprint(op)
  {}

  /** An operation sees nothing outside its footprint. */
  lemma OnlyFootprint(a: Vault, b: Vault, op: Operation, hash: Hasher)
    requires Agree(a, b, Footprint(op))
    ensures OpFailure(a, op, hash) == OpFailure(b, op, hash) && LandingText(a, op) == LandingText(b, op)
  {
    hide ValidVaultPath, MovedContent;
    assert op.target in Footprint(op) && Landing(op) in Footprint(op);
  }

  /** Nor does it change anything there. */
  lemma EffectLocal(v: Vault, op: Operation, paths: set<string>)
    requires paths !! Footprint(op)
    ensures Agree(v, Effect(v, op), paths)
  {
    hide LandingText;
  }

  lemma {:induction false} FoldLocal(v: Vault, ops: seq<Operation>, n: nat, paths: set<string>)
    requires n <= |ops| && forall i :: 0 <= i < n ==> paths !! Footprint(ops[i])
    ensures Agree(v, Before(v, ops, n), paths)
    decreases n
  {
    hide Effect, Footprint;
    if n > 0 {
      FoldLocal(v, ops, n - 1, paths);
      FoldSnoc(v, ops, n - 1);
      EffectLocal(Before(v, ops, n - 1), ops[n - 1], paths);
    }
  }

  lemma PreparedRuns(v: Vault, op: Operation, hash: Hasher)
    requires PrepareFailure(v, op) == None
    ensures OpFailure(v, Prepared(v, op, hash), hash) == None
    ensures LandingText(v, Prepared(v, op, hash)) == LandingText(v, op)
  {
    hide ValidVaultPath, MovedContent;
  }

  /** Operations on separate paths, prepared in a vault that has not changed there,
      all run, and together do exactly what was previewed. */
  lemma DisjointPlanRuns(v: Vault, ops: seq<Operation>, hash: Hasher, later: Vault)
    requires forall i :: 0 <= i < |ops| ==> PrepareFailure(v, ops[i]) == None
    requires Disjoint(ops) && forall i :: 0 <= i < |ops| ==> Agree(v, later, Footprint(ops[i]))
    ensures var ready := PreparedAll(v, ops, hash);
      && GuardsHold(later, ready, hash) && RunsClean(later, ready, hash)
      && forall i :: 0 <= i < |ops| ==> LandingText(Before(later, ready, i), ready[i]) == LandingText(v, ops[i])
  {
    hide PrepareFailure, OpFailure, GuardFailure, LandingText, Effect, Fold, Agree;
    var ready := PreparedAll(v, ops, hash);
    forall i | 0 <= i < |ops|
      ensures OpFailure(Before(later, ready, i), ready[i], hash) == None
      ensures GuardFailure(later, ready[i], hash) == None
      ensures LandingText(Before(later, ready, i), ready[i]) == LandingText(v, ops[i])
    {
      forall j | 0 <= j < |ops| ensures Footprint(ready[j]) == Footprint(ops[j]) { FootprintSame(v, ops[j], hash); }
      hide Footprint, Prepared;
      FoldLocal(later, ready, i, Footprint(ready[i]));
      AgreeThen(v, later, Before(later, ready, i), Footprint(ready[i]));
      OnlyFootprint(v, Before(later, ready, i), ready[i], hash);
      OnlyFootprint(v, later, ready[i], hash);
      PreparedRuns(v, ops[i], hash);
      GuardsFirst(later, ready[i], hash);
    }
  }

  lemma GuardsFirst(v: Vault, op: Operation, hash: Hasher)
    requires OpFailure(v, op, hash) == None
    ensures GuardFailure(v, op, hash) == None
  {}

  lemma AgreeThen(a: Vault, b: Vault, c: Vault, paths: set<string>)
    requires Agree(a, b, paths) && Agree(b, c, paths)
    ensures Agree(a, c, paths)
  {}

  lemma EffectAt(v: Vault, op: Operation, p: string)
    requires op.kind == MoveNote <==> op.target != Landing(op)
    ensures p == Landing(op) ==> p in Effect(v, op) && Effect(v, op)[p] == LandingText(v, op)
    ensures p in Footprint(op) && p != Landing(op) ==> p !in Effect(v, op)
    ensures p !in Footprint(op) ==> Agree(v, Effect(v, op), {p})
  {
    hide LandingText, Landing;
  }

  /** What `end` holds at `p` after the first `n` operations, in terms of the previews:
      the text that landed there, nothing if it was moved away, else what was there. */
  predicate Settled(v: Vault, ops: seq<Operation>, later: Vault, end: Vault, n: nat, p: string)
    requires n <= |ops|
  {
    && (forall i :: 0 <= i < n && p == Landing(ops[i]) ==> p in end && end[p] == LandingText(v, ops[i]))
    && (forall i :: 0 <= i < n && p in Footprint(ops[i]) && p != Landing(ops[i]) ==> p !in end)
    && ((forall i :: 0 <= i < n ==> p !in Footprint(ops[i])) ==> Agree(later, end, {p}))
  }

  lemma SettledStep(v: Vault, ops: seq<Operation>, later: Vault, w: Vault, n: nat, p: string, op: Operation)
    requires 0 < n <= |ops| && Disjoint(ops) && Settled(v, ops, later, w, n - 1, p)
    requires Landing(op) == Landing(ops[n - 1]) && Footprint(op) == Footprint(ops[n - 1])
    requires op.kind == MoveNote <==> op.target != Landing(op)
    requires LandingText(w, op) == LandingText(v, ops[n - 1])
    ensures Settled(v, ops, later, Effect(w, op), n, p)
  {
    EffectAt(w, op, p);
    LandingIn(ops, n);
    hide Effect, LandingText, Landing, Footprint;
    if p in Footprint(op) {
      assert forall i :: 0 <= i < n - 1 ==> p !in Footprint(ops[i]);
      hide Disjoint, Agree;
    } else {
      hide Disjoint;
      SettledOut(v, ops, later, w, Effect(w, op), n, p);
    }
  }

  lemma SettledOut(v: Vault, ops: seq<Operation>, later: Vault, w: Vault, end: Vault, n: nat, p: string)
    requires 0 < n <= |ops| && Settled(v, ops, later, w, n - 1, p)
    requires p !in Footprint(ops[n - 1]) && p != Landing(ops[n - 1]) && Agree(w, end, {p})
    ensures Settled(v, ops, later, end, n, p)
  {
    hide LandingText, Landing, Footprint;
    assert p in {p};
    assert (p in w <==> p in end) && (p in w ==> w[p] == end[p]);
  }

  /** And the vault it ends in is the old one with each previewed text at its landing
      place and the moved notes gone from where they were. */
  lemma {:induction false} DisjointPlanResult(v: Vault, ops: seq<Operation>, hash: Hasher, later: Vault, n: nat,
                                              p: string)
    requires n <= |ops| && forall i :: 0 <= i < |ops| ==> PrepareFailure(v, ops[i]) == None
    requires Disjoint(ops) && forall i :: 0 <= i < |ops| ==> Agree(v, later, Footprint(ops[i]))
    ensures Settled(v, ops, later, Before(later, PreparedAll(v, ops, hash), n), n, p)
    decreases n
  {
    hide PrepareFailure, Disjoint, Footprint, Effect, Fold, Landing, LandingText, Prepared, GuardsHold, RunsClean,
      PreparedAll;
    var ready := PreparedAll(v, ops, hash);
    BeforeNone(later, ready);
    if n == 0 {
      hide Agree, Before;
    } else {
      DisjointPlanResult(v, ops, hash, later, n - 1, p);
      DisjointPlanRuns(v, ops, hash, later);
      FoldSnoc(later, ready, n - 1);
      assert ready[n - 1] == Prepared(v, ops[n - 1], hash);
      SameShape(v, ops[n - 1], hash);
      NotMovedOnto(v, ops[n - 1]);
      assert Before(later, ready, n) == Effect(Before(later, ready, n - 1), ready[n - 1]);
      hide *;
      SettledStep(v, ops, later, Before(later, ready, n - 1), n, p, ready[n - 1]);
    }
  }

  lemma LandingIn(ops: seq<Operation>, n: nat)
    requires n <= |ops|
    ensures forall i :: 0 <= i < n ==> Landing(ops[i]) in Footprint(ops[i])
  {}

  lemma SameShape(v: Vault, op: Operation, hash: Hasher)
    ensures var r := Prepared(v, op, hash);
      Landing(r) == Landing(op) && r.target == op.target && r.kind == op.kind && Footprint(r) == Footprint(op)
  {}

  lemma BeforeNone(v: Vault, ops: seq<Operation>)
    ensures Before(v, ops, 0) == v
  {}

  lemma NotMovedOnto(v: Vault, op: Operation)
    requires PrepareFailure(v, op) == None
    ensures op.kind == MoveNote <==> op.target != Landing(op)
  {}

  // ---- The plans that run ----

  /** Every operation would run by itself on the vault as it is. */
  predicate EachRuns(v: Vault, ops: seq<Operation>, hash: Hasher) {
    forall i :: 0 <= i < |ops| ==> OpFailure(v, ops[i], hash) == None
  }

  /** Every append and rewrite leaves a text with another digest than it finds. */
  predicate DigestsChange(v: Vault, ops: seq<Operation>, hash: Hasher) {
    forall i :: 0 <= i < |ops| && Edits(ops[i]) && ops[i].target in v ==>
      hash(LandingText(v, ops[i])) != hash(v[ops[i].target])
  }

  /** What the operations from `m` to `n` leave alone, if all keep off these paths. */
  lemma {:induction false} FoldLocalFrom(v: Vault, ops: seq<Operation>, m: nat, n: nat, paths: set<string>)
    requires m <= n <= |ops| && forall k :: m <= k < n ==> paths !! Footprint(ops[k])
    ensures Agree(Before(v, ops, m), Before(v, ops, n), paths)
    decreases n
  {
    hide Effect, Footprint, Before;
    if m < n {
      FoldLocalFrom(v, ops, m, n - 1, paths);
      BeforeStep(v, ops, n - 1);
      EffectLocal(Before(v, ops, n - 1), ops[n - 1], paths);
    }
  }

  lemma BeforeStep(v: Vault, ops: seq<Operation>, i: nat)
    requires i < |ops|
    ensures Before(v, ops, i + 1) == Effect(Before(v, ops, i), ops[i])
  {
    FoldSnoc(v, ops, i);
  }

  /** The operation at `j` finds a path of its own as an earlier operation left it: a new
      note where it wants to put one, another text than it was made for, or nothing. */
  lemma FoundTaken(v: Vault, a: Operation, b: Operation, w: Vault, hash: Hasher, p: string)
    requires OpFailure(v, a, hash) == None && OpFailure(v, b, hash) == None && DigestsChange(v, [a], hash)
    requires p in Footprint(a) && p in Footprint(b) && Agree(Effect(v, a), w, {p})
    ensures OpFailure(w, b, hash) != None
  {
    hide ValidVaultPath, MovedContent;
    assert [a][0] == a && p in {p};
    LandsWhere(v, a, hash);
    EffectAt(v, a, p);
    hide Effect, LandingText;
  }

  lemma LandsWhere(v: Vault, op: Operation, hash: Hasher)
    requires OpFailure(v, op, hash) == None
    ensures op.kind == MoveNote <==> op.target != Landing(op)
    ensures Landing(op) in v <==> Edits(op)
  {
    hide ValidVaultPath;
  }

  /** If two operations share a path and none between them or before touches it, the later
      one fails at its turn. */
  lemma SharedPathFails(v: Vault, ops: seq<Operation>, hash: Hasher, i: nat, j: nat, p: string)
    requires i < j < |ops| && EachRuns(v, ops, hash) && DigestsChange(v, ops, hash)
    requires p in Footprint(ops[i]) && p in Footprint(ops[j])
    requires forall a, b :: 0 <= a < b < j ==> Footprint(ops[a]) !! Footprint(ops[b])
    ensures OpFailure(Before(v, ops, j), ops[j], hash) != None
  {
    hide Footprint, OpFailure, Effect, LandingText, Before;
    var at, after, end := Before(v, ops, i), Before(v, ops, i + 1), Before(v, ops, j);
    assert forall k :: 0 <= k < i ==> Footprint(ops[i]) !! Footprint(ops[k]);
    FoldLocal(v, ops, i, Footprint(ops[i]));
    assert forall k :: i + 1 <= k < j ==> {p} !! Footprint(ops[k]);
    FoldLocalFrom(v, ops, i + 1, j, {p});
    BeforeStep(v, ops, i);
    assert DigestsChange(v, [ops[i]], hash) by { assert [ops[i]][0] == ops[i]; }
    SameEffect(v, at, ops[i], p);
    assert Agree(Effect(v, ops[i]), end, {p}) by { AgreeThen(Effect(v, ops[i]), after, end, {p}); }
    FoundTaken(v, ops[i], ops[j], end, hash, p);
  }

  lemma SameEffect(v: Vault, w: Vault, op: Operation, p: string)
    requires Agree(v, w, Footprint(op)) && p in Footprint(op)
    ensures Agree(Effect(v, op), Effect(w, op), {p})
  {
    hide MovedContent;
    assert op.target in Footprint(op) && Landing(op) in Footprint(op);
    OnlyFootprint(v, w, op, s => s);
  }

  lemma {:induction false} RunsApart(v: Vault, ops: seq<Operation>, hash: Hasher, n: nat)
    requires n <= |ops| && EachRuns(v, ops, hash) && DigestsChange(v, ops, hash) && RunsClean(v, ops, hash)
    ensures forall i, j :: 0 <= i < j < n ==> Footprint(ops[i]) !! Footprint(ops[j])
    decreases n
  {
    hide Footprint, OpFailure, EachRuns, DigestsChange, Before;
    if n > 0 {
      RunsApart(v, ops, hash, n - 1);
      forall i | 0 <= i < n - 1 ensures Footprint(ops[i]) !! Footprint(ops[n - 1]) {
        if p :| p in Footprint(ops[i]) && p in Footprint(ops[n - 1]) {
          SharedPathFails(v, ops, hash, i, n - 1, p);
        }
      }
    }
  }

  /** The exact condition for operations that would each run by themselves to run one after
      the other: no two share a path. */
  lemma RunsIffApart(v: Vault, ops: seq<Operation>, hash: Hasher)
    requires EachRuns(v, ops, hash) && DigestsChange(v, ops, hash)
    ensures RunsClean(v, ops, hash) <==> Disjoint(ops)
  {
    hide Footprint, OpFailure, DigestsChange, Before;
    if RunsClean(v, ops, hash) { RunsApart(v, ops, hash, |ops|); }
    if Disjoint(ops) {
      forall i | 0 <= i < |ops| ensures OpFailure(Before(v, ops, i), ops[i], hash) == None {
        FoldLocal(v, ops, i, Footprint(ops[i]));
        OnlyFootprint(v, Before(v, ops, i), ops[i], hash);
      }
    }
  }

  /** So a plan runs on a vault if and only if each of its operations would by itself and no
      two share a path. */
  lemma PlanRunsIff(v: Vault, ops: seq<Operation>, hash: Hasher)
    requires DigestsChange(v, ops, hash)
    ensures GuardsHold(v, ops, hash) && RunsClean(v, ops, hash) <==> EachRuns(v, ops, hash) && Disjoint(ops)
  {
    hide OpFailure, GuardFailure, DigestsChange, Disjoint, Before;
    if GuardsHold(v, ops, hash) && RunsClean(v, ops, hash) {
      forall i | 0 <= i < |ops| ensures OpFailure(v, ops[i], hash) == None {
        PayloadStays(v, Before(v, ops, i), ops[i], hash);
      }
    }
    if EachRuns(v, ops, hash) {
      forall i | 0 <= i < |ops| ensures GuardFailure(v, ops[i], hash) == None { GuardsFirst(v, ops[i], hash); }
      RunsIffApart(v, ops, hash);
    }
  }

  /** Past its guard an operation only fails by its own payload or kind. */
  lemma PayloadStays(v: Vault, w: Vault, op: Operation, hash: Hasher)
    requires GuardFailure(v, op, hash) == None && OpFailure(w, op, hash) == None
    ensures OpFailure(v, op, hash) == None
  {
    hide GuardFailure;
  }

  /** A previewed plan whose guards hold, whenever that is, runs if and only if no two of
      its operations share a path. */
  lemma PreviewedRunsIff(v: Vault, ops: seq<Operation>, hash: Hasher, later: Vault)
    requires forall i :: 0 <= i < |ops| ==> PrepareFailure(v, ops[i]) == None
    requires GuardsHold(later, PreparedAll(v, ops, hash), hash) && DigestsChange(later, PreparedAll(v, ops, hash), hash)
    ensures RunsClean(later, PreparedAll(v, ops, hash), hash) <==> Disjoint(ops)
  {
    hide OpFailure, GuardFailure, DigestsChange, Footprint, Prepared, PrepareFailure, Before;
    var ready := PreparedAll(v, ops, hash);
    forall i | 0 <= i < |ops|
      ensures OpFailure(later, ready[i], hash) == None && Footprint(ready[i]) == Footprint(ops[i])
    {
      PreparedRuns(v, ops[i], hash);
      PayloadStays(later, v, ready[i], hash);
      FootprintSame(v, ops[i], hash);
    }
    RunsIffApart(later, ready, hash);
  }

  /** Without rewrites every digest changes, unless two texts collide: the condition for a
      previewed plan is then that no two operations share a path. */
  lemma NoRewriteRunsIff(v: Vault, ops: seq<Operation>, hash: Hasher)
    requires forall i :: 0 <= i < |ops| ==> PrepareFailure(v, ops[i]) == None && ops[i].kind != RewriteNote
    requires forall i :: 0 <= i < |ops| && Edits(ops[i]) && ops[i].target in v ==>
      Injective(hash, v[ops[i].target], LandingText(v, ops[i]))
    ensures GuardsHold(v, PreparedAll(v, ops, hash), hash)
    ensures RunsClean(v, PreparedAll(v, ops, hash), hash) <==> Disjoint(ops)
  {
    hide PrepareFailure, OpFailure, GuardFailure, LandingText, Prepared, Disjoint, RunsClean;
    var ready := PreparedAll(v, ops, hash);
    forall i | 0 <= i < |ops|
      ensures GuardFailure(v, ready[i], hash) == None
      ensures Edits(ready[i]) && ready[i].target in v ==> hash(LandingText(v, ready[i])) != hash(v[ready[i].target])
    {
      PreparedRuns(v, ops[i], hash);
      GuardsFirst(v, ready[i], hash);
      AppendGrows(v, ops[i], hash);
    }
    PreviewedRunsIff(v, ops, hash, v);
  }

  lemma AppendGrows(v: Vault, op: Operation, hash: Hasher)
    requires PrepareFailure(v, op) == None && op.kind != RewriteNote
    ensures var r := Prepared(v, op, hash);
      r.kind == op.kind && r.target == op.target && (Edits(op) ==> op.target in v && LandingText(v, op) != v[op.target])
  {
    hide ValidVaultPath, MovedContent;
    if Edits(op) {
      var c := ContentOf(op.payload).value;
      assert |v[op.target] + c| > |v[op.target]|;
    }
  }
}
