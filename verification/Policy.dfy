/** The approval checks: internal/policy/checker.go. Directories are those of
    normalized conventions; what a Knowledge draft must contain is a parameter. */
module Policy {
  import opened Text
  import opened Blobs
  import opened Paths
  import opened Plans
  import opened VaultOps

  datatype Rules = Rules(
    inboxDir: string, processedDir: string, knowledgeDir: string, draftDir: string,
    proposalsDir: string, reportsDir: string, draftOk: string -> bool)

  predicate HasDirPrefix(path: string, dir: string) {
    path == dir || HasPrefix(path, dir + "/")
  }

  /** The prefix test asks whether the path lies in the directory, segment by segment. */
  lemma DirPrefixMeans(path: string, dir: string)
    ensures HasDirPrefix(path, dir) <==> Inside(path, dir)
  {
    InsideMeans(path, dir);
  }

  const BULK_AFFECTS_THRESHOLD: nat := 5

  predicate Blank(s: string) { Trim(s) == "" }

  function TrimSuffix(s: string, suffix: string): string {
    if HasSuffix(s, suffix) then s[..|s| - |suffix|] else s
  }

  /** A note mentions a path as it is or as a wiki link. */
  predicate Mentions(note: string, path: string) {
    Contains(note, path) || Contains(note, "[[" + TrimSuffix(path, ".md") + "]]")
  }

  /** What both approval checks ask of a plan as a whole. */
  predicate WellNamed(plan: Plan) {
    && plan.requiresApproval
    && !Blank(plan.id) && !Blank(plan.jobId) && !Blank(plan.summary)
    && plan.sourceRefs != [] && (forall r :: r in plan.sourceRefs ==> !Blank(r))
    && plan.targets != [] && (forall t :: t in plan.targets ==> ValidVaultPath(t))
    && plan.ops != []
  }

  predicate LowPayload(op: Operation, rules: Rules) {
    match op.kind
    case CreateNote => HasDirPrefix(op.target, rules.inboxDir)
    case WriteAgentReport => HasDirPrefix(op.target, rules.reportsDir)
    case AppendNote =>
      HasDirPrefix(op.target, rules.inboxDir) && ValidDigest(op.beforeHash)
      && ContentOf(op.payload).Some? && !Blank(ContentOf(op.payload).value)
    case RewriteNote =>
      HasDirPrefix(op.target, rules.inboxDir) && ValidDigest(op.beforeHash)
      && ContentOf(op.payload).Some? && !Blank(ContentOf(op.payload).value)
    case _ => false
  }

  /** `Check`: what may run without approval. */
  predicate LowAllowed(plan: Plan, rules: Rules) {
    && plan.risk == Low && !plan.requiresApproval && plan.ops != []
    && forall op :: op in plan.ops ==> op.risk == Low && ValidVaultPath(op.target) && LowPayload(op, rules)
  }

  predicate MediumPayload(op: Operation, plan: Plan, rules: Rules) {
    match op.kind
    case CreateNote =>
      var c := ContentOf(op.payload);
      HasDirPrefix(op.target, rules.draftDir) && c.Some? && !Blank(c.value) && rules.draftOk(c.value)
    case AppendNote =>
      var c := ContentOf(op.payload);
      HasDirPrefix(op.target, rules.knowledgeDir) && c.Some? && !Blank(c.value)
    case MoveNote =>
      var d := MoveOf(op.payload);
      && HasDirPrefix(op.target, rules.inboxDir)
      && d.Some? && ValidVaultPath(d.value.path) && HasDirPrefix(d.value.path, rules.processedDir)
      && d.value.path in plan.targets
      && !Blank(d.value.note) && Mentions(Trim(d.value.note), d.value.path)
      && exists t :: t in plan.targets && HasDirPrefix(t, rules.knowledgeDir) && Mentions(Trim(d.value.note), t)
    case _ => false
  }

  /** `CheckForApproval`. */
  predicate MediumAllowed(plan: Plan, rules: Rules) {
    && plan.risk == Medium && WellNamed(plan)
    && forall op :: op in plan.ops ==>
      && !Blank(op.id) && !Blank(op.reason) && op.risk == Medium
      && ValidVaultPath(op.target) && op.target in plan.targets
      && MediumPayload(op, plan, rules)
  }

  /** `CheckApproved`. */
  predicate ApprovedAllowed(plan: Plan, rules: Rules) {
    && (plan.status == Approved || plan.status == Applying)
    && MediumAllowed(plan, rules)
    && forall op :: op in plan.ops && Mutates(op) ==> ValidDigest(op.beforeHash)
  }

  predicate HighPayload(op: Operation, rules: Rules) {
    match op.kind
    case RenameNote =>
      && op.payload.Rename? && ValidVaultPath(op.payload.source) && ValidVaultPath(op.payload.renamed)
      && HasDirPrefix(op.payload.source, rules.knowledgeDir)
      && !HasDirPrefix(op.payload.source, rules.draftDir)
      && op.payload.source == op.target
    case BulkRetag =>
      && op.payload.Retag? && |op.payload.retagged| >= BULK_AFFECTS_THRESHOLD
      && (op.payload.addTags != [] || op.payload.removeTags != [])
      && forall p :: p in op.payload.retagged ==> ValidVaultPath(p)
    case BulkLinkRewrite =>
      && op.payload.Relink? && ValidVaultPath(op.payload.fromPath) && ValidVaultPath(op.payload.toPath)
      && |op.payload.relinked| >= BULK_AFFECTS_THRESHOLD
      && forall p :: p in op.payload.relinked ==> ValidVaultPath(p)
    case _ => false
  }

  /** `CheckForApprovalHighRisk`. */
  predicate HighAllowed(plan: Plan, rules: Rules) {
    && plan.risk == High && WellNamed(plan)
    && forall op :: op in plan.ops ==>
      && !Blank(op.id) && !Blank(op.reason) && op.risk == High
      && ValidVaultPath(op.target)
      && HighPayload(op, rules)
  }

  /** What may run without approval: new notes, appends and rewrites in the inbox, and new
      reports among the reports; nothing is moved. */
  lemma LowInPlace(plan: Plan, rules: Rules, op: Operation)
    requires LowAllowed(plan, rules) && op in plan.ops
    ensures match op.kind
      case CreateNote => Inside(op.target, rules.inboxDir)
      case WriteAgentReport => Inside(op.target, rules.reportsDir)
      case AppendNote => Inside(op.target, rules.inboxDir) && op.payload.Content? && !AllSpace(op.payload.content)
      case RewriteNote => Inside(op.target, rules.inboxDir) && op.payload.Content? && !AllSpace(op.payload.content)
      case _ => false
    ensures Footprint(op) == {op.target}
  {
    DirPrefixMeans(op.target, rules.inboxDir);
    DirPrefixMeans(op.target, rules.reportsDir);
    ContentMeans(op.payload);
    hide HasDirPrefix, Inside, Blank, AllSpace, ValidVaultPath, ValidDigest;
  }

  /** The note holds the path, or a wiki link to it less its `.md`. */
  ghost predicate LinksTo(note: string, path: string) {
    || (exists a, b :: note == a + path + b)
    || (exists a, b, stem :: note == a + "[[" + stem + "]]" + b && StemOf(path, stem))
  }

  lemma MentionsMeans(note: string, path: string)
    ensures Mentions(note, path) <==> LinksTo(note, path)
  {
    ContainsMeans(note, path);
    var stem := TrimSuffix(path, ".md");
    ContainsMeans(note, "[[" + stem + "]]");
    StemIs(path);
    hide Contains, TrimSuffix;
    if Contains(note, "[[" + stem + "]]") {
      var a, b :| note == a + ("[[" + stem + "]]") + b;
      assert note == a + "[[" + stem + "]]" + b;
    }
    if a, b, t :| note == a + "[[" + t + "]]" + b && StemOf(path, t) {
      assert note == a + ("[[" + stem + "]]") + b;
    }
  }

  /** The path less its `.md`, if it ends so. */
  predicate StemOf(path: string, stem: string) {
    path == stem + ".md" || (path == stem && !HasSuffix(path, ".md"))
  }

  lemma StemIs(path: string)
    ensures forall t :: StemOf(path, t) <==> t == TrimSuffix(path, ".md")
  {
    forall t ensures StemOf(path, t) <==> t == TrimSuffix(path, ".md") {
      if path == t + ".md" { assert path[|path| - 3..] == ".md" && path[..|path| - 3] == t; }
    }
  }

  /** Where an approved operation of each kind may work: a new note among the drafts, an
      append in Knowledge, a move from the inbox to the processed notes that leaves a note
      linking to both the moved note and a Knowledge target. */
  ghost predicate InPlace(op: Operation, targets: seq<string>, rules: Rules) {
    match op.kind
    case CreateNote =>
      && op.payload.Content? && Inside(op.target, rules.draftDir)
      && rules.draftOk(op.payload.content) && !AllSpace(op.payload.content)
    case AppendNote => op.payload.Content? && Inside(op.target, rules.knowledgeDir) && !AllSpace(op.payload.content)
    case MoveNote =>
      && op.payload.Move? && Inside(op.target, rules.inboxDir)
      && Inside(op.payload.destination, rules.processedDir)
      && ValidVaultPath(op.payload.destination) && op.payload.destination in targets
      && LinksTo(Trim(op.payload.processingNote), op.payload.destination)
      && exists t :: t in targets && Inside(t, rules.knowledgeDir)
           && LinksTo(Trim(op.payload.processingNote), t)
    case _ => false
  }

  ghost predicate AllInPlace(ops: seq<Operation>, targets: seq<string>, rules: Rules) {
    forall op :: op in ops ==> InPlace(op, targets, rules)
  }

  lemma MoveInPlace(plan: Plan, rules: Rules, op: Operation)
    requires op.kind == MoveNote
    ensures MediumPayload(op, plan, rules) <==> InPlace(op, plan.targets, rules)
  {
    if op.payload.Move? {
      var d, note := op.payload.destination, Trim(op.payload.processingNote);
      DirPrefixMeans(op.target, rules.inboxDir);
      DirPrefixMeans(d, rules.processedDir);
      MentionsMeans(note, d);
      if LinksTo(note, d) && ValidVaultPath(d) { BlankLinksNowhere(note, d); }
      LinkedTargets(note, plan.targets, rules.knowledgeDir);
      hide HasDirPrefix, Mentions, LinksTo, Inside, ValidVaultPath, Trim;
    } else {
      assert Blank("");
      hide HasDirPrefix, Mentions, Blank;
    }
  }

  lemma LinkedTargets(note: string, targets: seq<string>, dir: string)
    ensures (exists t :: t in targets && HasDirPrefix(t, dir) && Mentions(note, t)) <==>
      exists t :: t in targets && Inside(t, dir) && LinksTo(note, t)
  {
    hide HasDirPrefix, Mentions, LinksTo, Inside;
    forall t ensures HasDirPrefix(t, dir) && Mentions(note, t) <==> Inside(t, dir) && LinksTo(note, t) {
      DirPrefixMeans(t, dir);
      MentionsMeans(note, t);
    }
  }

  lemma BlankLinksNowhere(note: string, path: string)
    requires LinksTo(note, path) && ValidVaultPath(path)
    ensures note != ""
  {
    assert "" in Segments("");
  }

  lemma WriteInPlace(plan: Plan, rules: Rules, op: Operation)
    requires op.kind != MoveNote
    ensures MediumPayload(op, plan, rules) <==> InPlace(op, plan.targets, rules)
  {
    DirPrefixMeans(op.target, rules.draftDir);
    DirPrefixMeans(op.target, rules.knowledgeDir);
    ContentMeans(op.payload);
    hide HasDirPrefix, Mentions, LinksTo, Inside, Blank, AllSpace;
  }

  /** The text of a payload, if there is something visible in it. */
  lemma ContentMeans(p: Payload)
    ensures ContentOf(p).Some? && !Blank(ContentOf(p).value) <==> p.Content? && !AllSpace(p.content)
  {
    assert Trim("") == "";
    if p.Content? { BlankLine(p.content); }
    hide Trim, AllSpace;
  }

  /** An allowed medium-risk plan keeps each operation in the directories of its kind, and
      names every path it reads or writes among its targets, which are what it locks. */
  lemma MediumFootprint(plan: Plan, rules: Rules, op: Operation)
    requires MediumAllowed(plan, rules) && op in plan.ops
    ensures InPlace(op, plan.targets, rules)
    ensures forall p :: p in Footprint(op) ==> p in plan.targets && p != ""
  {
    assert "" in Segments("");
    assert forall p :: p in Footprint(op) ==> p in plan.targets && p != "" by {
      hide HasDirPrefix, Mentions, Blank, Trim;
    }
    hide *;
    assert MediumPayload(op, plan, rules) by { PayloadAllowed(plan, rules, op); }
    if op.kind == MoveNote { MoveInPlace(plan, rules, op); } else { WriteInPlace(plan, rules, op); }
  }

  lemma PayloadAllowed(plan: Plan, rules: Rules, op: Operation)
    requires MediumAllowed(plan, rules) && op in plan.ops
    ensures MediumPayload(op, plan, rules)
  {
    hide MediumPayload, Blank, ValidVaultPath, WellNamed;
  }

  // ---- The checks as a whole ----

  predicate Hexadecimal(d: string) {
    forall k :: 0 <= k < |d| ==> '0' <= d[k] <= '9' || 'a' <= d[k] <= 'f' || 'A' <= d[k] <= 'F'
  }

  /** A digest of 64 hexadecimal digits from `i` on, with white space around it. */
  ghost predicate DigestAt(hash: string, i: nat) {
    i + 64 <= |hash| && Hexadecimal(hash[i..i + 64]) && AllSpace(hash[..i]) && AllSpace(hash[i + 64..])
  }

  lemma HexDigits(c: char)
    ensures c in HEX_DIGITS <==> '0' <= c <= '9' || 'a' <= c <= 'f' || 'A' <= c <= 'F'
    ensures c in HEX_DIGITS ==> !IsSpace(c)
  {
    var s := HEX_DIGITS;
    assert s[0] == '0' && s[1] == '1' && s[2] == '2' && s[3] == '3' && s[4] == '4' && s[5] == '5' && s[6] == '6'
      && s[7] == '7' && s[8] == '8' && s[9] == '9';
    assert s[10] == 'a' && s[11] == 'b' && s[12] == 'c' && s[13] == 'd' && s[14] == 'e' && s[15] == 'f';
    assert s[16] == 'A' && s[17] == 'B' && s[18] == 'C' && s[19] == 'D' && s[20] == 'E' && s[21] == 'F';
  }

  lemma AllDigits(d: string)
    ensures Hexadecimal(d) <==> forall c :: c in d ==> c in HEX_DIGITS
    ensures Hexadecimal(d) && d != "" ==> !IsSpace(d[0]) && !IsSpace(d[|d| - 1])
  {
    forall c
      ensures c in HEX_DIGITS <==> '0' <= c <= '9' || 'a' <= c <= 'f' || 'A' <= c <= 'F'
      ensures c in HEX_DIGITS ==> !IsSpace(c)
    {
      HexDigits(c);
    }
    hide HEX_DIGITS, IsSpace;
    assert forall k :: 0 <= k < |d| ==> d[k] in d;
  }

  lemma DigestMeans(hash: string)
    ensures ValidDigest(hash) <==> exists i: nat :: DigestAt(hash, i)
  {
    var i, j := TrimParts(hash);
    AllDigits(Trim(hash));
    hide HEX_DIGITS, IsSpace, Trim, Hexadecimal, AllSpace;
    if ValidDigest(hash) { assert DigestAt(hash, i); }
    if n: nat :| DigestAt(hash, n) {
      var d := hash[n..n + 64];
      AllDigits(d);
      assert d[0] == hash[n] && d[63] == hash[n + 63];
      TrimAt(hash, n, n + 64);
    }
  }

  /** What is left by trimming stands where white space ends. */
  lemma TrimAt(s: string, i: nat, j: nat)
    requires i < j <= |s| && AllSpace(s[..i]) && AllSpace(s[j..]) && !IsSpace(s[i]) && !IsSpace(s[j - 1])
    ensures Trim(s) == s[i..j]
  {
    var m, n := TrimParts(s);
    BlankLine(s);
    assert s[i] in s;
    hide Trim, IsSpace;
    assert forall k :: 0 <= k < i ==> s[k] == s[..i][k];
    assert forall k :: j <= k < |s| ==> s[k] == s[j..][k - j];
    assert forall k :: 0 <= k < m ==> s[k] == s[..m][k];
    assert forall k :: n <= k < |s| ==> s[k] == s[n..][k - n];
    assert s[m..n][0] == s[m] && s[m..n][n - m - 1] == s[n - 1];
  }

  /** A plan that needs approval and says what it is for, from what, and where. */
  ghost predicate Presented(plan: Plan) {
    && plan.requiresApproval && |plan.ops| > 0 && |plan.sourceRefs| > 0 && |plan.targets| > 0
    && !AllSpace(plan.id) && !AllSpace(plan.jobId) && !AllSpace(plan.summary)
    && (forall r :: r in plan.sourceRefs ==> !AllSpace(r))
    && (forall t :: t in plan.targets ==> ValidVaultPath(t))
  }

  ghost predicate Explained(op: Operation, risk: Risk) {
    op.risk == risk && !AllSpace(op.id) && !AllSpace(op.reason) && ValidVaultPath(op.target)
  }

  lemma PresentedMeans(plan: Plan)
    ensures WellNamed(plan) <==> Presented(plan)
  {
    BlankLine(plan.id);
    BlankLine(plan.jobId);
    BlankLine(plan.summary);
    forall r ensures Blank(r) <==> AllSpace(r) { BlankLine(r); }
    hide Blank, AllSpace, ValidVaultPath;
  }

  lemma ExplainedMeans(op: Operation, risk: Risk)
    ensures !Blank(op.id) && !Blank(op.reason) && op.risk == risk && ValidVaultPath(op.target) <==> Explained(op, risk)
  {
    BlankLine(op.id);
    BlankLine(op.reason);
    hide Trim, AllSpace, ValidVaultPath;
  }

  /** Exactly what may run without approval. */
  ghost predicate LowMeant(op: Operation, rules: Rules) {
    && op.risk == Low && ValidVaultPath(op.target)
    && match op.kind
       case CreateNote => Inside(op.target, rules.inboxDir)
       case WriteAgentReport => Inside(op.target, rules.reportsDir)
       case AppendNote => LowEdit(op, rules)
       case RewriteNote => LowEdit(op, rules)
       case _ => false
  }

  ghost predicate LowEdit(op: Operation, rules: Rules) {
    && Inside(op.target, rules.inboxDir) && ValidDigest(op.beforeHash)
    && op.payload.Content? && !AllSpace(op.payload.content)
  }

  lemma LowMeans(plan: Plan, rules: Rules)
    ensures LowAllowed(plan, rules) <==>
      plan.risk == Low && !plan.requiresApproval && |plan.ops| > 0
      && forall op :: op in plan.ops ==> LowMeant(op, rules)
  {
    hide ValidVaultPath, ValidDigest, HasDirPrefix, Inside, Blank, AllSpace;
    forall op: Operation
      ensures op.risk == Low && ValidVaultPath(op.target) && LowPayload(op, rules) <==> LowMeant(op, rules)
    {
      DirPrefixMeans(op.target, rules.inboxDir);
      DirPrefixMeans(op.target, rules.reportsDir);
      ContentMeans(op.payload);
    }
    hide LowMeant, LowPayload;
  }

  /** Exactly the plans that may ask for approval, and those of them that may run. */
  lemma MediumMeans(plan: Plan, rules: Rules)
    ensures MediumAllowed(plan, rules) <==>
      plan.risk == Medium && Presented(plan)
      && forall op :: op in plan.ops ==>
        Explained(op, Medium) && op.target in plan.targets && InPlace(op, plan.targets, rules)
    ensures ApprovedAllowed(plan, rules) <==>
      MediumAllowed(plan, rules) && plan.status in {Approved, Applying}
      && forall op :: op in plan.ops && op.kind in {AppendNote, MoveNote} ==> ValidDigest(op.beforeHash)
  {
    PresentedMeans(plan);
    hide WellNamed, Presented, ValidVaultPath, ValidDigest, Blank, AllSpace, MediumPayload, InPlace;
    forall op: Operation ensures MediumPayload(op, plan, rules) <==> InPlace(op, plan.targets, rules) {
      if op.kind == MoveNote { MoveInPlace(plan, rules, op); } else { WriteInPlace(plan, rules, op); }
    }
    forall op: Operation
      ensures
        !Blank(op.id) && !Blank(op.reason) && op.risk == Medium && ValidVaultPath(op.target) <==> Explained(op, Medium)
    {
      ExplainedMeans(op, Medium);
    }
    forall op | InPlace(op, plan.targets, rules) ensures op.kind != RewriteNote {
      NeverRewrites(op, plan.targets, rules);
    }
  }

  lemma NeverRewrites(op: Operation, targets: seq<string>, rules: Rules)
    requires InPlace(op, targets, rules)
    ensures op.kind in {CreateNote, AppendNote, MoveNote}
  {
    hide LinksTo, Inside, ValidVaultPath, AllSpace;
  }

  /** Where a high-risk operation of each kind may reach: a rename of a Knowledge note that
      is no draft, or a change of five notes or more. */
  ghost predicate FarReaching(op: Operation, rules: Rules) {
    match op.kind
    case RenameNote =>
      && op.payload.Rename? && op.payload.source == op.target && ValidVaultPath(op.payload.renamed)
      && Inside(op.target, rules.knowledgeDir) && !Inside(op.target, rules.draftDir)
    case BulkRetag =>
      && op.payload.Retag? && |op.payload.addTags| + |op.payload.removeTags| > 0
      && |op.payload.retagged| >= 5 && forall p :: p in op.payload.retagged ==> ValidVaultPath(p)
    case BulkLinkRewrite =>
      && op.payload.Relink? && ValidVaultPath(op.payload.fromPath) && ValidVaultPath(op.payload.toPath)
      && |op.payload.relinked| >= 5 && forall p :: p in op.payload.relinked ==> ValidVaultPath(p)
    case _ => false
  }

  lemma HighMeans(plan: Plan, rules: Rules)
    ensures HighAllowed(plan, rules) <==>
      plan.risk == High && Presented(plan)
      && forall op :: op in plan.ops ==> Explained(op, High) && FarReaching(op, rules)
  {
    PresentedMeans(plan);
    hide WellNamed, Presented, ValidVaultPath, Blank, AllSpace, HasDirPrefix, Inside;
    forall op: Operation
      ensures ValidVaultPath(op.target) && HighPayload(op, rules) <==>
        ValidVaultPath(op.target) && FarReaching(op, rules)
    {
      DirPrefixMeans(op.target, rules.knowledgeDir);
      DirPrefixMeans(op.target, rules.draftDir);
    }
    hide HighPayload, FarReaching;
    forall op: Operation
      ensures
        !Blank(op.id) && !Blank(op.reason) && op.risk == High && ValidVaultPath(op.target) <==> Explained(op, High)
    {
      ExplainedMeans(op, High);
    }
  }

  /** Nothing a high-risk plan lists is an operation the executor could run. */
  lemma HighIsNotRunnable(plan: Plan, rules: Rules, op: Operation, v: Vault, hash: Hasher)
    requires HighAllowed(plan, rules) && op in plan.ops
    ensures OpFailure(v, op, hash) == Some(Unsupported)
  {
    hide HasDirPrefix, Blank;
  }

  // ---- Proposal notes ----

  function TrimSlashes(dir: string): string {
    if dir != "" && dir[|dir| - 1] == '/' then TrimSlashes(dir[..|dir| - 1]) else dir
  }

  function ProposalNotePath(planId: string, dir: string): string {
    var short := TrimPrefix(planId, "plan_");
    TrimSlashes(dir) + "/proposal_" + (if |short| > 12 then short[..12] else short) + ".md"
  }

  lemma ProposalInDir(planId: string, dir: string)
    requires dir != "" && dir[|dir| - 1] != '/'
    ensures Inside(ProposalNotePath(planId, dir), dir) && ProposalNotePath(planId, dir) != dir
    ensures forall id :: planId == "plan_" + id || (planId == id && !HasPrefix(planId, "plan_")) ==>
      ProposalNotePath(planId, dir) == dir + "/proposal_" + (if |id| > 12 then id[..12] else id) + ".md"
  {
    DirPrefixMeans(ProposalNotePath(planId, dir), dir);
    var short := TrimPrefix(planId, "plan_");
    var cut := if |short| > 12 then short[..12] else short;
    assert ProposalNotePath(planId, dir) == dir + "/" + ("proposal_" + cut + ".md");
  }
}
