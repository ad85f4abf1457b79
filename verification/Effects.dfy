/** What operations leave in the vault, told from their payloads and the old vault
    (createNote, editNote and moveNote of internal/executor/direct_fs.go). */
module Effects {
  import opened Text
  import opened Paths
  import opened Plans
  import opened VaultOps

  // ---- One operation ----

  /** The old text and the note, with one line break between them exactly when the note
      is not empty and the old text is neither empty nor at the start of a line. */
  predicate Joined(was: string, note: string, text: string) {
    if note != "" && was != "" && was[|was| - 1] != '\n' then text == was + "\n" + note else text == was + note
  }

  /** Where a move goes, and what it adds. */
  predicate MovesTo(p: Payload, dest: string, note: string) {
    p == Move(dest, note) || (p.Rename? && p.renamed == dest && note == "")
  }

  /** The content of a payload that decodes: other objects have an empty one. */
  predicate Decodes(p: Payload, content: string) {
    p == Content(content) || (!p.Content? && !p.Malformed? && content == "")
  }

  /** What `w` holds where the operation works, if it found `v` there. */
  ghost predicate LeftAt(v: Vault, op: Operation, w: Vault) {
    match op.kind
    case CreateNote => op.target !in v && op.target in w && op.payload == Content(w[op.target])
    case WriteAgentReport => op.target !in v && op.target in w && op.payload == Content(w[op.target])
    case AppendNote =>
      op.target in v && op.target in w && v[op.target] <= w[op.target]
      && Decodes(op.payload, w[op.target][|v[op.target]|..])
    case RewriteNote => op.target in v && op.target in w && Decodes(op.payload, w[op.target])
    case MoveNote =>
      op.target in v && op.target !in w
      && exists dest, note :: MovesTo(op.payload, dest, note) && dest !in v && dest in w
           && Joined(v[op.target], note, w[dest])
    case _ => false
  }

  /** The paths an operation works on. */
  function PathsOf(op: Operation): set<string> {
    {op.target} +
    if op.kind == MoveNote && op.payload.Move? then {op.payload.destination}
    else if op.kind == MoveNote && op.payload.Rename? then {op.payload.renamed}
    else {}
  }

  predicate SameAt(v: Vault, w: Vault, p: string) {
    (p in v <==> p in w) && (p in v ==> v[p] == w[p])
  }

  /** The operation left its text, and everything else as it was. */
  ghost predicate Leaves(v: Vault, op: Operation, w: Vault) {
    LeftAt(v, op, w) && forall p :: p !in PathsOf(op) ==> SameAt(v, w, p)
  }

  /** An operation that succeeds leaves what its payload says. */
  lemma EffectMeans(v: Vault, op: Operation, hash: Hasher)
    requires OpFailure(v, op, hash) == None
    ensures Leaves(v, op, Effect(v, op)) && Footprint(op) == PathsOf(op)
    ensures LandsIn(op, Effect(v, op), LandingText(v, op))
  {
    if op.kind == MoveNote {
      MoveMeans(v, op, hash);
    } else {
      assert Effect(v, op)[op.target] == LandingText(v, op);
      hide ValidVaultPath, MovesTo, Joined;
    }
  }

  lemma MoveMeans(v: Vault, op: Operation, hash: Hasher)
    requires OpFailure(v, op, hash) == None && op.kind == MoveNote
    ensures Leaves(v, op, Effect(v, op)) && Footprint(op) == PathsOf(op)
    ensures LandsIn(op, Effect(v, op), LandingText(v, op))
  {
    assert !ValidVaultPath("") by { assert "" in Segments(""); }
    hide ValidVaultPath;
    var d, w := MoveOf(op.payload).value, Effect(v, op);
    assert MovesTo(op.payload, d.path, d.note);
    assert Joined(v[op.target], d.note, w[d.path]);
    assert d.path in PathsOf(op);
    hide MovedContent, Joined, Decodes;
  }

  lemma EffectLeaves(v: Vault, op: Operation, hash: Hasher)
    requires OpFailure(v, op, hash) == None
    ensures Leaves(v, op, Effect(v, op))
  {
    EffectMeans(v, op, hash);
  }

  /** What is previewed is the text the operation leaves. */
  lemma PreviewMeans(v: Vault, op: Operation, hash: Hasher)
    requires PrepareFailure(v, op) == None
    ensures Leaves(v, op, Effect(v, op)) && LandsIn(op, Effect(v, op), LandingText(v, op))
  {
    PreparedRuns(v, op, hash);
    EffectMeans(v, Prepared(v, op, hash), hash);
    hide ValidVaultPath, MovedContent;
    var r := Prepared(v, op, hash);
    assert r.kind == op.kind && r.target == op.target && r.payload == op.payload;
    assert Effect(v, r) == Effect(v, op);
    LeavesLike(v, r, op, Effect(v, op));
  }

  /** The text is the one at the path the operation writes to. */
  predicate LandsIn(op: Operation, w: Vault, text: string) {
    exists p :: p in w && p in PathsOf(op) && w[p] == text && (p != op.target <==> op.kind == MoveNote)
  }

  lemma LeavesLike(v: Vault, a: Operation, b: Operation, w: Vault)
    requires a.kind == b.kind && a.target == b.target && a.payload == b.payload && Leaves(v, a, w)
    ensures Leaves(v, b, w)
  {
    hide MovesTo, Joined, Decodes;
    assert PathsOf(a) == PathsOf(b);
  }

  /** What can be seen while an operation runs: the old vault, the finished one, and for a
      move the note at both places or at the new place without its processing note. */
  ghost predicate Midway(v: Vault, op: Operation, w: Vault) {
    || w == v || Leaves(v, op, w)
    || (op.kind == MoveNote && op.target in v
        && exists dest, note :: MovesTo(op.payload, dest, note) && dest !in v
             && (w == v[dest := v[op.target]] || w == (v - {op.target})[dest := v[op.target]]))
  }

  lemma StageMeans(v: Vault, op: Operation, hash: Hasher, w: Vault)
    requires OpFailure(v, op, hash) == None && w in Stages(v, op)
    ensures Midway(v, op, w)
  {
    EffectMeans(v, op, hash);
    assert !ValidVaultPath("") by { assert "" in Segments(""); }
    hide ValidVaultPath, Leaves, Effect;
    if op.kind == MoveNote {
      var d := MoveOf(op.payload).value;
      assert MovesTo(op.payload, d.path, d.note);
      assert v[d.path := v[op.target]] - {op.target} == (v - {op.target})[d.path := v[op.target]];
    }
  }

  // ---- Plans ----

  /** Each operation, in its turn, left what its payload says. */
  ghost predicate Chained(v: Vault, ops: seq<Operation>, vaults: seq<Vault>) {
    && |vaults| == |ops| + 1 && vaults[0] == v
    && forall i :: 0 <= i < |ops| ==> Leaves(vaults[i], ops[i], vaults[i + 1])
  }

  /** The vaults before each of the first `n` operations, and the one after them. */
  function VaultsOf(v: Vault, ops: seq<Operation>, n: nat): seq<Vault>
    requires n <= |ops|
  {
    seq(n + 1, i requires 0 <= i < n + 1 => Before(v, ops, i))
  }

  lemma ChainOf(v: Vault, ops: seq<Operation>, hash: Hasher, n: nat)
    requires n <= |ops| && forall i :: 0 <= i < n ==> OpFailure(Before(v, ops, i), ops[i], hash) == None
    ensures Chained(v, ops[..n], VaultsOf(v, ops, n))
  {
    hide OpFailure, Effect, Leaves, Before;
    BeforeNone(v, ops);
    forall i | 0 <= i < n ensures Leaves(Before(v, ops, i), ops[i], Before(v, ops, i + 1)) {
      BeforeStep(v, ops, i);
      EffectMeans(Before(v, ops, i), ops[i], hash);
    }
  }

  /** Path by path: every operation left its text, and no other path changed. */
  ghost predicate AllLeft(v: Vault, ops: seq<Operation>, w: Vault) {
    && (forall i :: 0 <= i < |ops| ==> LeftAt(v, ops[i], w))
    && (forall p :: (forall i :: 0 <= i < |ops| ==> p !in PathsOf(ops[i])) ==> SameAt(v, w, p))
  }

  predicate Apart(ops: seq<Operation>) {
    forall i, j :: 0 <= i < j < |ops| ==> PathsOf(ops[i]) !! PathsOf(ops[j])
  }

  lemma {:induction false} ChainSame(v: Vault, ops: seq<Operation>, vaults: seq<Vault>, m: nat, n: nat, p: string)
    requires Chained(v, ops, vaults) && m <= n <= |ops|
    requires forall i :: m <= i < n ==> p !in PathsOf(ops[i])
    ensures SameAt(vaults[m], vaults[n], p)
    decreases n
  {
    hide PathsOf, LeftAt;
    if m < n {
      ChainSame(v, ops, vaults, m, n - 1, p);
      assert Leaves(vaults[n - 1], ops[n - 1], vaults[n]);
    }
  }

  lemma LeftSame(v: Vault, v1: Vault, op: Operation, w: Vault, w1: Vault)
    requires LeftAt(v, op, w)
    requires forall p :: p in PathsOf(op) ==> SameAt(v, v1, p) && SameAt(w, w1, p)
    ensures LeftAt(v1, op, w1)
  {
    assert op.target in PathsOf(op);
    if op.kind == MoveNote {
      var dest, note :| MovesTo(op.payload, dest, note) && dest !in v && dest in w
        && Joined(v[op.target], note, w[dest]);
      assert dest in PathsOf(op);
    }
    hide PathsOf, Joined;
  }

  /** Operations that share no path leave, in the end, what each would leave by itself. */
  lemma ChainApart(v: Vault, ops: seq<Operation>, vaults: seq<Vault>)
    requires Chained(v, ops, vaults) && Apart(ops)
    ensures AllLeft(v, ops, vaults[|ops|])
  {
    hide PathsOf, LeftAt, SameAt;
    var w := vaults[|ops|];
    forall i | 0 <= i < |ops| ensures LeftAt(v, ops[i], w) {
      assert Leaves(vaults[i], ops[i], vaults[i + 1]);
      forall p | p in PathsOf(ops[i]) ensures SameAt(vaults[i], v, p) && SameAt(vaults[i + 1], w, p) {
        forall k | 0 <= k < |ops| && k != i ensures p !in PathsOf(ops[k]) {
          assert if k < i then PathsOf(ops[k]) !! PathsOf(ops[i]) else PathsOf(ops[i]) !! PathsOf(ops[k]);
        }
        ChainSame(v, ops, vaults, 0, i, p);
        ChainSame(v, ops, vaults, i + 1, |ops|, p);
        SameBack(v, vaults[i], p);
      }
      LeftSame(vaults[i], v, ops[i], vaults[i + 1], w);
    }
    forall p | forall i :: 0 <= i < |ops| ==> p !in PathsOf(ops[i]) ensures SameAt(v, w, p) {
      ChainSame(v, ops, vaults, 0, |ops|, p);
    }
  }

  lemma SameBack(v: Vault, w: Vault, p: string)
    requires SameAt(v, w, p)
    ensures SameAt(w, v, p)
  {}
}
