/** One enrich attempt, end to end: RunOne and buildPlan of internal/enrich/enrich.go.
    What the agent, the clock and the tables answer are inputs. */
module EnrichRun {
  import opened Text
  import opened Blobs
  import opened Frontmatter
  import opened Paths
  import opened Plans
  import opened VaultOps
  import opened Effects
  import opened Executor
  import opened EnrichRender
  import opened EnrichGuard
  import EnrichAgreement
  import EnrichQueue
  import NoteBoundary
  import PathLocks

  // ---- What the agent answers ----

  /** A route suggestion as its JSON text, with whether it is confident enough. */
  datatype Route = Route(json: string, confident: bool)

  datatype EnrichResult = EnrichResult(
    tags: seq<string>, related: seq<string>, route: Option<Route>,
    candidates: Option<string>, needsReview: bool)

  datatype AgentAnswer = NoAnswer | Unreadable | Answer(result: EnrichResult, runId: string)

  // ---- buildPlan ----

  function PrivateFields(r: EnrichResult, runId: string, attempts: nat, now: string): (m: map<string, string>)
    ensures m.Keys <= set k | k in PRIVATE_KEYS
  {
    var stamps := map[
      "openwhisker_enriched_at" := now,
      "openwhisker_enrich_run_id" := runId,
      "openwhisker_enrich_attempts" := Decimal(attempts + 1)];
    assert PRIVATE_KEYS[0] in PRIVATE_KEYS && PRIVATE_KEYS[1] in PRIVATE_KEYS && PRIVATE_KEYS[2] in PRIVATE_KEYS
      && PRIVATE_KEYS[3] in PRIVATE_KEYS && PRIVATE_KEYS[4] in PRIVATE_KEYS;
    var routed :=
      if r.route.Some? && r.route.value.confident
      then stamps["openwhisker_route_suggestion" := r.route.value.json] else stamps;
    if r.candidates.Some? then routed["openwhisker_new_tag_candidates" := r.candidates.value] else routed
  }

  /** What a run adds: the agent's tags and at most three of its links, cleaned, the
      review tag when asked for, and the private fields. */
  function AdditionsOf(r: EnrichResult, runId: string, attempts: nat, now: string): (adds: Additions)
    ensures adds.Valid() && |adds.related| <= RELATED_APPEND_MAX
    ensures forall v :: v in adds.tags || v in adds.related ==> v != "" && Solid(v)
  {
    var review := if r.needsReview then ["status/needs-review"] else [];
    var links := NonEmpty(r.related);
    var cut := if |links| > RELATED_APPEND_MAX then links[..RELATED_APPEND_MAX] else links;
    assert Solid("status/needs-review") && forall v :: v in review ==> v == "status/needs-review";
    assert forall v :: v in cut ==> v in links;
    Additions(NonEmpty(r.tags) + review, cut, PrivateFields(r, runId, attempts, now))
  }

  /** The positions of the answers with something visible in them. */
  ghost predicate VisibleAt(values: seq<string>, at: seq<nat>) {
    Rising(at) && forall i :: i in at <==> 0 <= i < |values| && Trim(values[i]) != ""
  }

  /** The trimmed answers at these positions. */
  predicate PickedFrom(values: seq<string>, at: seq<nat>, picked: seq<string>) {
    |picked| <= |at| && forall k :: 0 <= k < |picked| ==> at[k] < |values| && picked[k] == Trim(values[at[k]])
  }

  lemma FieldsMean(r: EnrichResult, runId: string, attempts: nat, now: string)
    ensures var fields := PrivateFields(r, runId, attempts, now);
      && "openwhisker_enriched_at" in fields && fields["openwhisker_enriched_at"] == now
      && "openwhisker_enrich_run_id" in fields && fields["openwhisker_enrich_run_id"] == runId
      && "openwhisker_enrich_attempts" in fields && NumberOf(fields["openwhisker_enrich_attempts"]) == attempts + 1
      && ("openwhisker_route_suggestion" in fields <==> r.route.Some? && r.route.value.confident)
      && (r.route.Some? && r.route.value.confident ==> fields["openwhisker_route_suggestion"] == r.route.value.json)
      && ("openwhisker_new_tag_candidates" in fields <==> r.candidates.Some?)
      && (r.candidates.Some? ==> fields["openwhisker_new_tag_candidates"] == r.candidates.value)
  {
    NumberOfDecimal(attempts + 1);
    KeysApart();
    hide NumberOf, Decimal;
  }

  /** Every visible tag of the agent's is added, trimmed and in order, and the review tag
      last if it is asked for; so are the first three visible links, or all if there are
      fewer. The time, the run and the attempt go into the private fields of those names;
      a confident route and new candidates into theirs, and nothing else is added. */
  lemma AdditionsMean(r: EnrichResult, runId: string, attempts: nat, now: string)
      returns (tagsAt: seq<nat>, linksAt: seq<nat>)
    ensures VisibleAt(r.tags, tagsAt) && VisibleAt(r.related, linksAt)
    ensures var adds := AdditionsOf(r, runId, attempts, now);
      && |adds.tags| == |tagsAt| + (if r.needsReview then 1 else 0)
      && PickedFrom(r.tags, tagsAt, adds.tags[..|tagsAt|])
      && (r.needsReview ==> adds.tags[|tagsAt|] == "status/needs-review")
      && |adds.related| == (if |linksAt| < 3 then |linksAt| else 3)
      && PickedFrom(r.related, linksAt, adds.related)
    ensures var fields := AdditionsOf(r, runId, attempts, now).fields;
      && "openwhisker_enriched_at" in fields && fields["openwhisker_enriched_at"] == now
      && "openwhisker_enrich_run_id" in fields && fields["openwhisker_enrich_run_id"] == runId
      && "openwhisker_enrich_attempts" in fields && NumberOf(fields["openwhisker_enrich_attempts"]) == attempts + 1
      && ("openwhisker_route_suggestion" in fields <==> r.route.Some? && r.route.value.confident)
      && (r.route.Some? && r.route.value.confident ==> fields["openwhisker_route_suggestion"] == r.route.value.json)
      && ("openwhisker_new_tag_candidates" in fields <==> r.candidates.Some?)
      && (r.candidates.Some? ==> fields["openwhisker_new_tag_candidates"] == r.candidates.value)
  {
    tagsAt := NonEmptyMeans(r.tags);
    linksAt := NonEmptyMeans(r.related);
    FieldsMean(r, runId, attempts, now);
    hide PrivateFields, NonEmpty, Trim, NumberOf;
    var adds := AdditionsOf(r, runId, attempts, now);
    assert adds.tags[..|tagsAt|] == NonEmpty(r.tags);
    assert adds.related <= NonEmpty(r.related);
  }

  lemma KeysApart()
    ensures Distinct(PRIVATE_KEYS)
  {
    assert PRIVATE_KEYS[0][12] == 'r' && PRIVATE_KEYS[1][12] == 'n';
    assert |PRIVATE_KEYS[2]| == 23 && |PRIVATE_KEYS[3]| == 25 && |PRIVATE_KEYS[4]| == 27;
    assert |PRIVATE_KEYS[0]| == 28 && |PRIVATE_KEYS[1]| == 30;
  }

  function RewritePlan(planId: string, jobId: string, path: string, beforeHash: string, text: string): Plan {
    var op := Operation(planId + "_op", RewriteNote, path, beforeHash, Content(text), "enrich", Low);
    Plan(planId, jobId, Low, false, "enrich raw note", [jobId, path], [path], [op], Proposed)
  }

  /** `hasFrontmatterKey`: a line of the block that starts with the key. */
  predicate HasFrontmatterKey(content: string, key: string) {
    var end := BlockEndOf(content);
    end.Some? && exists l :: l in Split(content[4..end.value - 1]) && HasPrefix(l, key + ":")
  }

  const ENRICHED_AT: string := "openwhisker_enriched_at"

  /** The key is looked for on the lines the renderer takes the block to have. */
  lemma KeyMeans(content: string, key: string)
    ensures HasFrontmatterKey(content, key) <==>
      NoteOf(content).Some? && exists l :: l in NoteOf(content).value.lines && HasPrefix(l, key + ":")
  {
    var end := BlockEndOf(content);
    if end.Some? {
      var inner := content[4..end.value - 1];
      assert content[4..end.value] == inner + "\n";
      SplitSnocBreak(inner);
      assert NoteOf(content).value.lines == Split(inner);
    }
  }

  /** A rendered note with a visible time on it counts as enriched, whatever it was before. */
  lemma EnrichedOnce(before: string, adds: Additions)
    requires NoteOf(before).Some? && adds.Valid()
    requires ENRICHED_AT in adds.fields && Trim(adds.fields[ENRICHED_AT]) != ""
    ensures RenderNote(before, adds).Some? && HasFrontmatterKey(RenderNote(before, adds).value, ENRICHED_AT)
  {
    hide *;
    NoteBoundary.RenderKeepsBoundary(before, adds);
    var note := NoteOf(before).value;
    StampedLine(note.lines, adds);
    KeyMeans(RenderNote(before, adds).value, ENRICHED_AT);
  }

  lemma StampIn(secs: seq<Section>, adds: Additions)
    requires ENRICHED_AT in adds.fields && Trim(adds.fields[ENRICHED_AT]) != ""
    ensures exists s ::
      && s in RenderSections(secs, adds) + Appended(Written(secs, adds), adds)
      && s.head == ScalarSection(ENRICHED_AT, adds.fields[ENRICHED_AT]).head
  {
    var written := Written(secs, adds);
    hide Appended, ScalarSection, Trim;
    if ENRICHED_AT in written {
      var s :| s in secs && Managed(s.Key(), adds) && s.Key() == ENRICHED_AT;
      var i :| 0 <= i < |secs| && secs[i] == s;
      assert RenderSections(secs, adds)[i] in RenderSections(secs, adds);
      StampedSection(s, adds);
    } else {
      StampAppended(written, adds);
      assert ScalarSection(ENRICHED_AT, adds.fields[ENRICHED_AT]) in RenderSections(secs, adds)
        + Appended(written, adds);
    }
  }

  lemma StampAppended(written: set<string>, adds: Additions)
    requires ENRICHED_AT in adds.fields && Trim(adds.fields[ENRICHED_AT]) != "" && ENRICHED_AT !in written
    ensures ScalarSection(ENRICHED_AT, adds.fields[ENRICHED_AT]) in Appended(written, adds)
  {
    assert ENRICHED_AT in PRIVATE_KEYS;
    PrivateIn(PRIVATE_KEYS, written, adds.fields, ENRICHED_AT);
    hide ScalarSection, Trim, PrivateSections, MissingList;
  }

  lemma StampedLine(lines: seq<string>, adds: Additions)
    requires ENRICHED_AT in adds.fields && Trim(adds.fields[ENRICHED_AT]) != ""
    ensures exists l :: l in Rendered(lines, adds) && HasPrefix(l, ENRICHED_AT + ":")
  {
    var secs := Parse(lines).sections;
    var out := RenderOutline(Parse(lines), adds);
    var stamp := ScalarSection(ENRICHED_AT, adds.fields[ENRICHED_AT]).head;
    StampHead(adds.fields[ENRICHED_AT]);
    StampIn(secs, adds);
    hide RenderOutline, ScalarSection;
    var s :| s in out.sections && s.head == stamp;
    HeadInFlat(out.sections, s);
    assert stamp in out.Lines();
  }

  lemma StampHead(value: string)
    ensures HasPrefix(ScalarSection(ENRICHED_AT, value).head, ENRICHED_AT + ":")
  {
    hide ScalarText;
    assert ENRICHED_AT + ": " + ScalarText(value) == ENRICHED_AT + ":" + (" " + ScalarText(value));
  }

  lemma StampedSection(s: Section, adds: Additions)
    requires s.Key() == ENRICHED_AT && ENRICHED_AT in adds.fields
    ensures RenderSection(s, adds).head == ScalarSection(ENRICHED_AT, adds.fields[ENRICHED_AT]).head
  {
    hide KeyOf, ScalarText, ExistingEntries;
    assert |ENRICHED_AT| == 23 && |"tags"| == 4 && |"related"| == 7;
  }

  lemma {:induction false} PrivateIn(keys: seq<string>, written: set<string>, fields: map<string, string>, key: string)
    requires key in keys && key !in written && key in fields && Trim(fields[key]) != ""
    ensures ScalarSection(key, fields[key]) in PrivateSections(keys, written, fields)
  {
    hide Trim, ScalarSection;
    if keys[0] != key { PrivateIn(keys[1..], written, fields, key); }
  }

  lemma {:induction false} HeadInFlat(secs: seq<Section>, s: Section)
    requires s in secs
    ensures s.head in Flatten(secs)
  {
    if secs[0] == s {
      assert s.head == s.Lines()[0];
    } else {
      HeadInFlat(secs[1..], s);
    }
  }

  // ---- What a run may leave behind ----

  /** The new text is the same from the closing fence on, and it met the guard. */
  ghost predicate Enriched(before: string, after: string, policy: Policy, hash: Hasher) {
    && NoteOf(before).Some? && NoteOf(after).Some?
    && NoteOf(after).value.suffix == NoteOf(before).value.suffix
    && TextsKept(before, after, policy, hash)
  }

  /** A field of one line: its value is what stands behind the colon. */
  predicate OneLineField(lines: seq<string>, key: string, i: nat) {
    FieldSpan(lines, key, i, i + 1)
  }

  /** Values of one line are the same on both sides up to outer blanks. */
  ghost predicate ValuesKept(b: seq<string>, a: seq<string>) {
    forall k, i: nat, p: nat :: k != "" && k !in WRITABLE && OneLineField(b, k, i) && OneLineField(a, k, p) ==>
      Trim(RestOf(b[i])) == Trim(RestOf(a[p]))
  }

  /** What meeting the guard means: the other fields keep their lines, up to blank
      lines and blanks at line ends, and so a value on one line keeps its text up to
      outer blanks; no entry of the two lists is lost; new tags are known, or the
      review tag, or under raw/; at most three links are new. */
  lemma EnrichedMeans(before: string, after: string, policy: Policy, hash: Hasher)
    requires Enriched(before, after, policy, hash)
    ensures OthersUntouched(before, after)
    ensures ValuesKept(Split(SplitFrontmatter(before).value.block), Split(SplitFrontmatter(after).value.block))
    ensures var b, a := Fields(SplitFrontmatter(before).value.block), Fields(SplitFrontmatter(after).value.block);
      && (forall t :: t in EnrichAgreement.Entries(b, "tags") ==> t in EnrichAgreement.Entries(a, "tags"))
      && (forall l :: l in EnrichAgreement.Entries(b, "related") ==> l in EnrichAgreement.Entries(a, "related"))
      && (forall t :: t in EnrichAgreement.Entries(a, "tags") && t !in EnrichAgreement.Entries(b, "tags") ==>
           TagText(policy.Lower(Trim(t)), policy))
      && (forall l :: l in EnrichAgreement.Entries(a, "related") && l !in EnrichAgreement.Entries(b, "related") ==>
        LinkText(l))
      && |SetDiff(EnrichAgreement.Entries(a, "related"), EnrichAgreement.Entries(b, "related"))| <= RELATED_APPEND_MAX
  {
    var x, y := SplitFrontmatter(before).value.block, SplitFrontmatter(after).value.block;
    assert FieldsKept(Fields(x), Fields(y), policy);
    assert OthersSame(Split(x), Split(y)) by { OthersKept(x, y, policy); }
    assert OthersUntouched(before, after);
    hide *;
    ListsMean(Fields(x), Fields(y), policy);
    ValuesSame(Split(x), Split(y));
  }

  lemma ValuesSame(b: seq<string>, a: seq<string>)
    requires OthersSame(b, a) && AllLineFree(b) && AllLineFree(a)
    ensures ValuesKept(b, a)
  {
    hide OthersSame, TopKey, KeyOf, RestOf, Trim;
    forall k, i: nat, p: nat | k != "" && k !in WRITABLE && OneLineField(b, k, i) && OneLineField(a, k, p)
      ensures Trim(RestOf(b[i])) == Trim(RestOf(a[p]))
    {
      OneLineKept(b, a, k, i, p);
    }
  }

  lemma ListsMean(b: map<string, string>, a: map<string, string>, policy: Policy)
    requires FieldsKept(b, a, policy)
    ensures forall t :: t in EnrichAgreement.Entries(b, "tags") ==> t in EnrichAgreement.Entries(a, "tags")
    ensures forall l :: l in EnrichAgreement.Entries(b, "related") ==> l in EnrichAgreement.Entries(a, "related")
    ensures forall t :: t in EnrichAgreement.Entries(a, "tags") && t !in EnrichAgreement.Entries(b, "tags") ==>
      TagText(policy.Lower(Trim(t)), policy)
    ensures forall l :: l in EnrichAgreement.Entries(a, "related") && l !in EnrichAgreement.Entries(b, "related") ==>
      LinkText(l)
    ensures |SetDiff(EnrichAgreement.Entries(a, "related"),
      EnrichAgreement.Entries(b, "related"))| <= RELATED_APPEND_MAX
  {
    EntriesKept(b, a, policy);
    TagsMean(EnrichAgreement.Entries(b, "tags"), EnrichAgreement.Entries(a, "tags"), policy);
    LinksMean(EnrichAgreement.Entries(b, "related"), EnrichAgreement.Entries(a, "related"));
    hide TagText, LinkText, TagsAppend, RelatedAppend, SetDiff, FieldsKept, EnrichAgreement.Entries;
  }

  lemma OneLineKept(b: seq<string>, a: seq<string>, key: string, i: nat, p: nat)
    requires OthersSame(b, a) && AllLineFree(b) && AllLineFree(a)
    requires key != "" && key !in WRITABLE && OneLineField(b, key, i) && OneLineField(a, key, p)
    ensures Trim(RestOf(b[i])) == Trim(RestOf(a[p]))
  {
    assert SameField(b, a, key);
    assert SpanLines(b, i, i + 1) == [RestOf(b[i])] && SpanLines(a, p, p + 1) == [RestOf(a[p])];
    RestLineFree(b[i]);
    RestLineFree(a[p]);
    assert SameText([RestOf(b[i])], [RestOf(a[p])]);
    hide *;
    SplitOne(RestOf(b[i]));
    SplitOne(RestOf(a[p]));
    OneLineSame(RestOf(b[i]), RestOf(a[p]));
  }

  lemma EntriesKept(b: map<string, string>, a: map<string, string>, policy: Policy)
    requires FieldsKept(b, a, policy)
    ensures TagsAppend(EnrichAgreement.Entries(b, "tags"), EnrichAgreement.Entries(a, "tags"), policy)
    ensures RelatedAppend(EnrichAgreement.Entries(b, "related"), EnrichAgreement.Entries(a, "related"))
  {
    assert "tags"[0] != "related"[0] && "tags" in WRITABLE && "related" in WRITABLE;
    assert ParseYAMLList("") == [];
    assert SetDiff([], []) == [];
    hide NormalizeBlob, ParseYAMLList, TagAllowed, LinkAllowed, SetDiff;
    if "tags" in b || "tags" in a { assert "tags" in b.Keys + a.Keys && FieldKept(b, a, "tags", policy); }
    if "related" in b || "related" in a { assert "related" in b.Keys + a.Keys && FieldKept(b, a, "related", policy); }
  }

  // ---- The guard accepts what it should ----

  lemma RenderedStarts(before: string, adds: Additions)
    requires RenderNote(before, adds).Some?
    ensures Trim(RenderNote(before, adds).value) != ""
  {
    hide NoteOf, Rendered;
    var note := NoteOf(before).value;
    var after := note.(lines := Rendered(note.lines, adds)).Text();
    assert after[0] == '-';
    assert TrimLeft(after) == after;
  }

  /** On a note both sides read alike, whatever the agent answered, the plan passes exactly
      when the additions, as the guard reads them back, meet its rules. */
  lemma CleanRunPasses(before: string, r: EnrichResult, runId: string, attempts: nat, stamp: string,
                       policy: Policy, hash: Hasher, planId: string, jobId: string, path: string)
    requires NoteOf(before).Some? && EnrichAgreement.CleanNote(NoteOf(before).value)
    requires ValidVaultPath(path) && ValidDigest(hash(before))
    ensures var adds := AdditionsOf(r, runId, attempts, stamp);
      && RenderNote(before, adds).Some?
      && var plan := RewritePlan(planId, jobId, path, hash(before), RenderNote(before, adds).value);
         var fields := EnrichAgreement.FieldsOf(Parse(NoteOf(before).value.lines).sections);
         PlanAllowed(plan, path, before, policy, hash) <==> EnrichAgreement.AdditionsAllowed(fields, adds, policy)
  {
    hide *;
    var adds := AdditionsOf(r, runId, attempts, stamp);
    RendersNote(before, adds);
    var after := RenderNote(before, adds).value;
    var fields := EnrichAgreement.FieldsOf(Parse(NoteOf(before).value.lines).sections);
    AddsVisible(r, runId, attempts, stamp);
    assert TextsKept(before, after, policy, hash) <==> EnrichAgreement.AdditionsAllowed(fields, adds, policy) by {
      EnrichAgreement.RendererMeetsGuard(before, adds, policy, hash);
    }
    RenderedStarts(before, adds);
    ShapeFits(planId, jobId, path, before, after, policy, hash);
  }

  lemma AddsVisible(r: EnrichResult, runId: string, attempts: nat, stamp: string)
    ensures EnrichAgreement.VisibleAdditions(AdditionsOf(r, runId, attempts, stamp))
  {
    hide AdditionsOf;
    var adds := AdditionsOf(r, runId, attempts, stamp);
  }

  lemma RendersNote(before: string, adds: Additions)
    ensures RenderNote(before, adds).Some? <==> NoteOf(before).Some?
  {
    hide NoteOf, Rendered;
  }

  lemma ShapeFits(planId: string, jobId: string, path: string, before: string, after: string, policy: Policy,
                  hash: Hasher)
    requires ValidVaultPath(path) && ValidDigest(hash(before)) && Trim(after) != ""
    ensures PlanAllowed(RewritePlan(planId, jobId, path, hash(before), after), path, before, policy, hash)
      <==> TextsKept(before, after, policy, hash)
  {
    hide TextsKept, ValidVaultPath, ValidDigest, Trim;
  }

  // ---- One rewrite through the executor ----

  lemma OneRewrite(v: Vault, op: Operation, hash: Hasher)
    requires op.kind == RewriteNote && op.payload.Content?
    ensures Before(v, [op], 0) == v && Before(v, [op], 1) == v[op.target := op.payload.content]
    ensures PlanStages(v, [op], 0) == {v, v[op.target := op.payload.content]}
    ensures OpFailure(v, op, hash) == GuardedRead(v, op, hash)
    ensures RunsClean(v, [op], hash) && GuardsHold(v, [op], hash) <==> GuardedRead(v, op, hash) == None
  {
    OneOp(v, op, hash);
    hide GuardedRead, Before, PlanStages, RunsClean, GuardsHold;
  }

  class EnrichService {
    const fs: DirectFS
    const queue: EnrichQueue.JobTable
    const policy: Policy
    const storeFails: nat -> bool
    var step: nat

    constructor (fs: DirectFS, queue: EnrichQueue.JobTable, policy: Policy, storeFails: nat -> bool)
      ensures this.fs == fs && this.queue == queue && this.policy == policy && this.storeFails == storeFails
      ensures step == 0
    {
      this.fs, this.queue, this.policy, this.storeFails := fs, queue, policy, storeFails;
      step := 0;
    }

    ghost predicate StoreWorks() { forall n :: !storeFails(n) }

    method Store() returns (ok: bool)
      modifies `step
      ensures (StoreWorks() ==> ok) && step == old(step) + 1 && ok == !storeFails(old(step))
    {
      ok := !storeFails(step);
      step := step + 1;
    }

    /** `readVaultFile`; nothing at the path is told apart from other failures. */
    method ReadVaultFile(path: string) returns (r: Outcome<string>)
      modifies fs`step
      ensures r.Ok? ==> path in fs.notes && r.value == fs.notes[path]
      ensures fs.Faultless() && ValidVaultPath(path) ==>
        if path in fs.notes then r.Ok? else r == Err(Missing)
    {
      if !ValidVaultPath(path) { return Err(Failure.BadPath); }
      var ok := fs.Attempt();
      if path !in fs.notes { return Err(Missing); }
      if !ok { return Err(Fault); }
      return Ok(fs.notes[path]);
    }

    /** The end state of one attempt; the vault it started its plan in is `base`. */
    ghost predicate EndsAs(path: string, before: string, base: Vault, end: Vault) {
      || end == base
      || (path in base && fs.hash(base[path]) == fs.hash(before)
          && exists after :: end == base[path := after] && Enriched(before, after, policy, fs.hash))
    }

    /** Nothing fails, and the note is still the one the agent saw. */
    ghost predicate Undisturbed(path: string, before: string, v: Vault, rows: PathLocks.Rows, now: int) {
      && fs.Faultless() && fs.LogWorks() && StoreWorks() && PathLocks.Grants(rows, [path], now)
      && path in v && v[path] == before
    }

    /** The guard accepts the rendering. */
    ghost predicate Accepted(path: string, before: string, adds: Additions, planId: string, jobId: string) {
      && RenderNote(before, adds).Some?
      && var plan := RewritePlan(planId, jobId, path, fs.hash(before), RenderNote(before, adds).value);
         PlanAllowed(plan, path, before, policy, fs.hash)
    }

    /** The plan for what the agent found, checked and run. */
    method CheckAndApply(path: string, before: string, adds: Additions, planId: string, jobId: string, now: int)
        returns (state: EnrichQueue.State)
      requires adds.Valid()
      modifies this, fs, fs.locks
      ensures EndsAs(path, before, old(fs.notes), fs.notes)
      ensures state == EnrichQueue.Done || state == EnrichQueue.Failed
      ensures (Undisturbed(path, before, old(fs.notes), old(fs.locks.rows), now)
        && Accepted(path, before, adds, planId, jobId)) ==>
        state == EnrichQueue.Done && fs.notes == old(fs.notes)[path := RenderNote(before, adds).value]
    {
      hide Enriched, PlanAllowed, RenderNote, Before, PlanStages, RunsClean, GuardsHold, OpFailure, Passed, Reports,
        OthersUntouched, RanAs, Apart, AllLeft, AllRows, Unique, PathLocks.Grants, PathLocks.Live, ValidVaultPath;
      var after := ApplyEnrichToFrontmatter(before, adds);
      if after.None? { return EnrichQueue.Failed; }
      var plan := RewritePlan(planId, jobId, path, fs.hash(before), after.value);
      var saved := Store();
      if !saved { return EnrichQueue.Failed; }
      var verdict := CheckEnrichPlan(plan, path, before, policy, fs.hash);
      if verdict.Reject? { return EnrichQueue.Failed; }
      ghost var base, op := fs.notes, plan.ops[0];
      OneRewrite(base, op, fs.hash);
      AllowedIsEnriched(before, adds, planId, jobId, path, policy, fs.hash);
      UniqueOne(path, plan, policy, before, fs.hash);
      var applied, err;
      ghost var started;
      applied, err, started := fs.Apply(plan, now);
      assert plan.ops == [op];
      if err.Some? { return EnrichQueue.Failed; }
      return EnrichQueue.Done;
    }

    /** The attempt up to its end state. `answer` is what the agent returned and
        `edited` the vault as others left it meanwhile. */
    method Attempt(path: string, attempts: nat, ready: bool, answer: AgentAnswer, edited: Vault, stamp: string,
                   planId: string, jobId: string, now: int) returns (state: EnrichQueue.State, ghost ran: bool)
      modifies this, fs, fs.locks
      ensures state in {EnrichQueue.Done, EnrichQueue.Failed, EnrichQueue.Skipped}
      ensures !ran ==> fs.notes == old(fs.notes)
      ensures ran ==> path in old(fs.notes) && EndsAs(path, old(fs.notes)[path], edited, fs.notes)
      ensures state == EnrichQueue.Skipped ==>
        ran && path in edited && edited[path] != old(fs.notes)[path] && fs.notes == edited
      ensures !ready ==> state == EnrichQueue.Failed && !ran
      ensures (ready && StoreWorks() && fs.Faultless() && ValidVaultPath(path)
        && (path !in old(fs.notes) || HasFrontmatterKey(old(fs.notes)[path], ENRICHED_AT))) ==>
        state == EnrichQueue.Done && !ran
      ensures path in old(fs.notes) && HasFrontmatterKey(old(fs.notes)[path], ENRICHED_AT) ==> !ran
      ensures !answer.Answer? ==> fs.notes == old(fs.notes) || fs.notes == edited
      ensures (ready && StoreWorks() && fs.Faultless() && ValidVaultPath(path) && path in old(fs.notes)
        && !HasFrontmatterKey(old(fs.notes)[path], ENRICHED_AT)) ==>
        && ran && (!answer.Answer? || path !in edited ==> state == EnrichQueue.Failed && fs.notes == edited)
        && (answer.Answer? && path in edited && fs.hash(edited[path]) != fs.hash(old(fs.notes)[path]) ==>
             state == EnrichQueue.Skipped)
      ensures (ready && answer.Answer? && StoreWorks() && fs.Faultless() && fs.LogWorks() && ValidVaultPath(path)
        && path in old(fs.notes) && !HasFrontmatterKey(old(fs.notes)[path], ENRICHED_AT)
        && path in edited && edited[path] == old(fs.notes)[path] && PathLocks.Grants(old(fs.locks.rows), [path], now)
        && Accepted(path, edited[path], AdditionsOf(answer.result, answer.runId, attempts, stamp), planId, jobId)) ==>
        WroteRendering(path, AdditionsOf(answer.result, answer.runId, attempts, stamp), edited, fs.notes, state)
    {
      hide Enriched, PlanAllowed, RenderNote, AdditionsOf, HasFrontmatterKey, ValidVaultPath, RewritePlan,
        PathLocks.Grants;
      ran := false;
      if !ready { return EnrichQueue.Failed, ran; }
      var created := Store();
      if !created { return EnrichQueue.Failed, ran; }
      var before := ReadVaultFile(path);
      if before.Err? {
        return if before.failure == Missing then EnrichQueue.Done else EnrichQueue.Failed, ran;
      }
      if HasFrontmatterKey(before.value, ENRICHED_AT) { return EnrichQueue.Done, ran; }
      ran := true;
      fs.notes := edited;
      fs.seen := fs.seen + {edited};
      if !answer.Answer? { return EnrichQueue.Failed, ran; }
      var current := ReadVaultFile(path);
      if current.Err? { return EnrichQueue.Failed, ran; }
      if fs.hash(current.value) != fs.hash(before.value) { return EnrichQueue.Skipped, ran; }
      var adds := AdditionsOf(answer.result, answer.runId, attempts, stamp);
      state := CheckAndApply(path, before.value, adds, planId, jobId, now);
    }

    ghost predicate WroteRendering(path: string, adds: Additions, base: Vault, end: Vault, state: EnrichQueue.State)
      requires path in base
    {
      && state == EnrichQueue.Done && RenderNote(base[path], adds).Some?
      && end == base[path := RenderNote(base[path], adds).value]
    }

    /** `RunOne`: one attempt, then its one report to the queue. */
    method RunOne(path: string, attempts: nat, ready: bool, answer: AgentAnswer, edited: Vault, stamp: string,
                  planId: string, jobId: string, now: int) returns (state: EnrichQueue.State, ghost ran: bool)
      modifies this, fs, fs.locks, queue
      ensures queue.rows == EnrichQueue.Finished(old(queue.rows), path, state)
      ensures state in {EnrichQueue.Done, EnrichQueue.Failed, EnrichQueue.Skipped}
      ensures !ran ==> fs.notes == old(fs.notes)
      ensures ran ==> path in old(fs.notes) && EndsAs(path, old(fs.notes)[path], edited, fs.notes)
    {
      state, ran := Attempt(path, attempts, ready, answer, edited, stamp, planId, jobId, now);
      queue.Finish(path, state);
    }
  }

  /** Unless two texts collide, only the note the agent saw is ever replaced. */
  lemma OnlySeenText(svc: EnrichService, path: string, before: string, base: Vault, end: Vault)
    requires svc.EndsAs(path, before, base, end) && (path in base ==> Injective(svc.fs.hash, before, base[path]))
    ensures end == base
      || (path in base
          && exists after :: end == base[path := after] && Enriched(base[path], after, svc.policy, svc.fs.hash))
  {
    hide Enriched;
  }

  lemma AllowedIsEnriched(before: string, adds: Additions, planId: string, jobId: string, path: string, policy: Policy,
                          hash: Hasher)
    requires RenderNote(before, adds).Some? && adds.Valid()
    requires var plan := RewritePlan(planId, jobId, path, hash(before), RenderNote(before, adds).value);
      PlanAllowed(plan, path, before, policy, hash)
    ensures Enriched(before, RenderNote(before, adds).value, policy, hash) && ValidVaultPath(path)
  {
    RendersNote(before, adds);
    NoteBoundary.RenderKeepsBoundary(before, adds);
    hide NoteOf, RenderNote, Rendered, TextsKept, ValidVaultPath, Trim, Additions.Valid;
  }

  lemma UniqueOne(path: string, plan: Plan, policy: Policy, before: string, hash: Hasher)
    requires PlanAllowed(plan, path, before, policy, hash)
    ensures Unique([path]) == [path]
  {
    hide TextsKept;
    assert "" in Segments("");
    assert path != "";
    assert [path][..0] == [] && Unique([]) == [];
  }
}
